/** Plugin-reference resolution (`Config.__load_plugins`): the plugins
    mapping is walked in place, every plugin name is checked against the
    names the plugin source lists and replaced by the module it loads.

    Resolve is the specification of one call: the state the mapping is left
    in (also when a name is unknown and the walk stops half-way), the error
    raised, and the names handed to the loader, in order. LoadPlugins is the
    loop that does it; the lemmas relate Resolve to an all-or-nothing
    reference (AllKnown, Resolved). */
module Plugins {
  import opened Values

  /** The plugin source: the names `list_plugins()` reports, and
      `load_plugin`. */
  datatype Registry = Registry(names: set<string>, load: string -> Handle)

  datatype LoadError =
    | UnknownPlugin(plugin: Value)  // ValueError naming the plugin that is not listed
    | NoItems(spec: Value)          // a truthy spec that is not a mapping has no `.items()`

  /** The outcome of resolving: the resulting tree, the error if one was
      raised, and the names `load_plugin` was called with, in call order. */
  datatype Resolution = Resolution(tree: Value, failure: Option<LoadError>, loads: seq<string>)

  /** `x in list_plugins()`: only a string can be among the listed names. */
  predicate Known(reg: Registry, x: Value)
  {
    x.Str? && x.text in reg.names
  }

  function NameOf(x: Value): string
  {
    if x.Str? then x.text else ""
  }

  /** The names of a list of plugin names. */
  function Names(items: seq<Value>): seq<string>
  {
    seq(|items|, i requires 0 <= i < |items| => NameOf(items[i]))
  }

  /** The modules loaded for a list of plugin names, in the same order. */
  function Handles(items: seq<Value>, reg: Registry): seq<Value>
  {
    seq(|items|, i requires 0 <= i < |items| => Plugin(reg.load(NameOf(items[i]))))
  }

  /** The index of the first item that is not a listed plugin name (|items|
      when there is none). */
  function FirstUnknown(items: seq<Value>, reg: Registry): (k: nat)
    ensures k <= |items|
    ensures forall i :: 0 <= i < k ==> Known(reg, items[i])
    ensures k < |items| ==> !Known(reg, items[k])
  {
    if items == [] then 0
    else if !Known(reg, items[0]) then 0
    else 1 + FirstUnknown(items[1..], reg)
  }

  /** Resolving one value of the plugins mapping: a list of names becomes the
      list of their modules, but only once every name has passed the check
      (an unknown name leaves the list as it was, after the names before it
      have been loaded); a single name becomes a single module; a mapping is
      resolved by recursion; anything else is left alone. */
  function ResolveEntry(v: Value, reg: Registry): Resolution
    decreases v
  {
    match v
    case List(items) =>
      var k := FirstUnknown(items, reg);
      if k == |items| then Resolution(List(Handles(items, reg)), None, Names(items))
      else Resolution(v, Some(UnknownPlugin(items[k])), Names(items[..k]))
    case Str(s) =>
      if s in reg.names then Resolution(Plugin(reg.load(s)), None, [s])
      else Resolution(v, Some(UnknownPlugin(v)), [])
    case Dict(e) => ResolvePrefix(v, |e|, reg)
    case _ => Resolution(v, None, [])
  }

  /** The state after the walk has visited the first `n` keys of the mapping
      `node` (or stopped at an unknown name among them). Keys are never added,
      removed or reordered, and keys not yet visited keep their values. */
  function ResolvePrefix(node: Value, n: nat, reg: Registry): (r: Resolution)
    requires node.Dict? && n <= |node.entries|
    ensures r.tree.Dict? && |r.tree.entries| == |node.entries|
    ensures forall i :: 0 <= i < |node.entries| ==> r.tree.entries[i].0 == node.entries[i].0
    ensures forall i :: n <= i < |node.entries| ==> r.tree.entries[i] == node.entries[i]
    decreases node, n
  {
    if n == 0 then Resolution(node, None, [])
    else
      var r := ResolvePrefix(node, n - 1, reg);
      if r.failure.Some? then r
      else
        var (key, value) := node.entries[n - 1];
        var s := ResolveEntry(value, reg);
        Resolution(Dict(r.tree.entries[n - 1 := (key, s.tree)]), s.failure, r.loads + s.loads)
  }

  /** One call of the resolver on the `plugins` attribute: a falsy spec
      (None, an empty mapping) is left alone, a truthy spec that is not a
      mapping fails before anything is loaded, a mapping is walked. */
  function Resolve(plugins: Value, reg: Registry): Resolution
  {
    if !Truthy(plugins) then Resolution(plugins, None, [])
    else if !plugins.Dict? then Resolution(plugins, Some(NoItems(plugins)), [])
    else ResolvePrefix(plugins, |plugins.entries|, reg)
  }

  // ----- the all-or-nothing reference -----

  /** Every plugin reference in `v` names a listed plugin. */
  ghost predicate AllKnown(v: Value, reg: Registry)
    decreases v
  {
    match v
    case Dict(e) => forall i :: 0 <= i < |e| ==> AllKnown(e[i].1, reg)
    case List(items) => forall i :: 0 <= i < |items| ==> Known(reg, items[i])
    case Str(s) => s in reg.names
    case _ => true
  }

  /** `v` with every plugin name replaced by its module, shape unchanged. */
  function Resolved(v: Value, reg: Registry): Value
    decreases v
  {
    match v
    case Dict(e) => Dict(seq(|e|, i requires 0 <= i < |e| => (e[i].0, Resolved(e[i].1, reg))))
    case List(items) => List(Handles(items, reg))
    case Str(s) => Plugin(reg.load(s))
    case _ => v
  }

  /** The plugin names referenced in `v`, in the order the walk meets them,
      each occurrence counted. */
  function Mentions(v: Value): seq<string>
    decreases v
  {
    match v
    case Dict(e) => MentionsPrefix(v, |e|)
    case List(items) => Names(items)
    case Str(s) => [s]
    case _ => []
  }

  function MentionsPrefix(node: Value, n: nat): seq<string>
    requires node.Dict? && n <= |node.entries|
    decreases node, n
  {
    if n == 0 then [] else MentionsPrefix(node, n - 1) + Mentions(node.entries[n - 1].1)
  }

  /** The index of the first key whose value holds an unknown plugin name
      (|e| when there is none). */
  ghost function FirstBad(e: seq<(string, Value)>, reg: Registry): (j: nat)
    ensures j <= |e|
    ensures forall i :: 0 <= i < j ==> AllKnown(e[i].1, reg)
    ensures j < |e| ==> !AllKnown(e[j].1, reg)
  {
    if e == [] then 0
    else if !AllKnown(e[0].1, reg) then 0
    else 1 + FirstBad(e[1..], reg)
  }

  /** `after` has the shape of `before`: same keys in the same order, lists of
      the same length, and only plugin names replaced by modules. */
  ghost predicate Mirrors(before: Value, after: Value)
    decreases before
  {
    match before
    case Dict(e) =>
      after.Dict? && |after.entries| == |e| &&
      forall i :: 0 <= i < |e| ==> after.entries[i].0 == e[i].0 && Mirrors(e[i].1, after.entries[i].1)
    case List(items) =>
      after.List? && |after.items| == |items| &&
      forall i :: 0 <= i < |items| ==> after.items[i] == items[i] || (items[i].Str? && after.items[i].Plugin?)
    case Str(_) => after == before || after.Plugin?
    case _ => after == before
  }

  /** The reference that stops the walk of `v`: the first value, in walk
      order, that is not a listed plugin name. */
  ghost function Culprit(v: Value, reg: Registry): Value
    requires !AllKnown(v, reg)
    decreases v
  {
    match v
    case Dict(e) => Culprit(e[FirstBad(e, reg)].1, reg)
    case List(items) => items[FirstUnknown(items, reg)]
    case _ => v
  }

  /** `v` as the walk leaves it when it stops at the culprit: keys before the
      failing key resolved, the failing key's nested mapping stopped in turn,
      later keys untouched; a failing list or name is kept as it was. */
  ghost function Stopped(v: Value, reg: Registry): Value
    requires !AllKnown(v, reg)
    decreases v
  {
    match v
    case Dict(e) =>
      var j := FirstBad(e, reg);
      Dict(seq(|e|, i requires 0 <= i < |e| =>
        if i < j then (e[i].0, Resolved(e[i].1, reg))
        else if i == j then (e[j].0, Stopped(e[j].1, reg))
        else e[i]))
    case _ => v
  }

  /** The names loaded before the walk of `v` meets the culprit, in order. */
  ghost function LoadedBefore(v: Value, reg: Registry): seq<string>
    requires !AllKnown(v, reg)
    decreases v
  {
    match v
    case Dict(e) =>
      var j := FirstBad(e, reg);
      MentionsPrefix(v, j) + LoadedBefore(e[j].1, reg)
    case List(items) => Names(items[..FirstUnknown(items, reg)])
    case _ => []
  }

  // ----- the walk against the reference -----

  lemma {:induction false} FirstUnknownAt(items: seq<Value>, reg: Registry, j: nat)
    requires j <= |items|
    requires forall i :: 0 <= i < j ==> Known(reg, items[i])
    requires j < |items| ==> !Known(reg, items[j])
    ensures FirstUnknown(items, reg) == j
    decreases |items|
  {
    if items != [] && j > 0 {
      FirstUnknownAt(items[1..], reg, j - 1);
    }
  }

  /** Once the walk has stopped, visiting further keys changes nothing. */
  lemma {:induction false} FailureSticks(node: Value, n: nat, m: nat, reg: Registry)
    requires node.Dict? && n <= m <= |node.entries|
    requires ResolvePrefix(node, n, reg).failure.Some?
    ensures ResolvePrefix(node, m, reg) == ResolvePrefix(node, n, reg)
    decreases m
  {
    if n < m {
      FailureSticks(node, n, m - 1, reg);
    }
  }

  lemma {:induction false} NamesKnown(items: seq<Value>, reg: Registry, k: nat)
    requires k <= |items|
    requires forall i :: 0 <= i < k ==> Known(reg, items[i])
    ensures forall x :: x in Names(items[..k]) ==> x in reg.names
  {
    forall x | x in Names(items[..k]) ensures x in reg.names {
      var i :| 0 <= i < k && Names(items[..k])[i] == x;
      assert items[..k][i] == items[i];
    }
  }

  /** Resolving a value keeps its shape and loads only listed names. */
  lemma {:induction false} EntryShape(v: Value, reg: Registry)
    ensures var r := ResolveEntry(v, reg);
      Mirrors(v, r.tree) && (forall x :: x in r.loads ==> x in reg.names)
    decreases v
  {
    match v
    case List(items) =>
      NamesKnown(items, reg, FirstUnknown(items, reg));
      assert items[..|items|] == items;
    case Dict(e) =>
      PrefixShape(v, |e|, reg);
    case _ =>
  }

  lemma {:induction false} PrefixShape(node: Value, n: nat, reg: Registry)
    requires node.Dict? && n <= |node.entries|
    ensures var r := ResolvePrefix(node, n, reg); var e := node.entries;
      (forall i :: 0 <= i < |e| ==> Mirrors(e[i].1, r.tree.entries[i].1)) &&
      (forall x :: x in r.loads ==> x in reg.names)
    decreases node, n
  {
    var e := node.entries;
    var r := ResolvePrefix(node, n, reg);
    if n == 0 {
      forall i | 0 <= i < |e| ensures Mirrors(e[i].1, r.tree.entries[i].1) {
        MirrorsRefl(e[i].1);
      }
    } else {
      PrefixShape(node, n - 1, reg);
      var r' := ResolvePrefix(node, n - 1, reg);
      if r'.failure.None? {
        var s := ResolveEntry(e[n - 1].1, reg);
        EntryShape(e[n - 1].1, reg);
        EntryStep(e, r'.tree.entries, n - 1, s.tree, reg);
      }
    }
  }

  /** Resolving a value succeeds exactly when all its references are
      listed, and then gives the reference result; otherwise it reports an
      unlisted value and leaves a list or a single name as it was. */
  lemma {:induction false} EntryOutcome(v: Value, reg: Registry)
    ensures var r := ResolveEntry(v, reg);
      (r.failure.None? <==> AllKnown(v, reg)) &&
      (r.failure.None? ==> r.tree == Resolved(v, reg) && r.loads == Mentions(v)) &&
      (r.failure.Some? ==> r.failure.value.UnknownPlugin? && !Known(reg, r.failure.value.plugin)) &&
      (r.failure.Some? && !v.Dict? ==> r.tree == v) &&
      (r.failure.Some? ==>
        !AllKnown(v, reg) &&
        r == Resolution(Stopped(v, reg), Some(UnknownPlugin(Culprit(v, reg))), LoadedBefore(v, reg)))
    decreases v
  {
    match v
    case List(items) =>
      assert items[..|items|] == items;
    case Dict(e) =>
      var r := ResolvePrefix(v, |e|, reg);
      PrefixOutcome(v, |e|, reg);
      if r.failure.None? {
        assert r.tree.entries == Resolved(v, reg).entries;
      } else {
        assert StoppedAt(v, r, FirstBad(e, reg), reg);
        assert r.tree.entries == Stopped(v, reg).entries;
      }
    case _ =>
  }

  lemma {:induction false} PrefixOutcome(node: Value, n: nat, reg: Registry)
    requires node.Dict? && n <= |node.entries|
    ensures ResolvePrefix(node, n, reg).failure.None? <==> n <= FirstBad(node.entries, reg)
    ensures ResolvePrefix(node, n, reg).failure.None? ==>
      ResolvedUpTo(node.entries, ResolvePrefix(node, n, reg).tree.entries, n, reg) &&
      ResolvePrefix(node, n, reg).loads == MentionsPrefix(node, n)
    ensures ResolvePrefix(node, n, reg).failure.Some? ==>
      StoppedAt(node, ResolvePrefix(node, n, reg), FirstBad(node.entries, reg), reg)
    decreases node, n, 1
  {
    if n > 0 {
      PrefixOutcome(node, n - 1, reg);
      if ResolvePrefix(node, n - 1, reg).failure.None? {
        if ResolveEntry(node.entries[n - 1].1, reg).failure.None? {
          PrefixGoesOn(node, n, reg);
        } else {
          PrefixStopsHere(node, n, reg);
        }
      } else {
        assert ResolvePrefix(node, n, reg) == ResolvePrefix(node, n - 1, reg);
      }
    }
  }

  /** The walk passes key `n - 1` cleanly; a helper for PrefixOutcome. */
  lemma {:induction false} PrefixGoesOn(node: Value, n: nat, reg: Registry)
    requires node.Dict? && 0 < n <= |node.entries|
    requires ResolvePrefix(node, n - 1, reg).failure.None?
    requires n - 1 <= FirstBad(node.entries, reg)
    requires ResolvedUpTo(node.entries, ResolvePrefix(node, n - 1, reg).tree.entries, n - 1, reg)
    requires ResolvePrefix(node, n - 1, reg).loads == MentionsPrefix(node, n - 1)
    requires ResolveEntry(node.entries[n - 1].1, reg).failure.None?
    ensures ResolvePrefix(node, n, reg).failure.None? && n <= FirstBad(node.entries, reg)
    ensures ResolvedUpTo(node.entries, ResolvePrefix(node, n, reg).tree.entries, n, reg)
    ensures ResolvePrefix(node, n, reg).loads == MentionsPrefix(node, n)
    decreases node, n, 0
  {
    var e := node.entries;
    var r' := ResolvePrefix(node, n - 1, reg);
    var s := ResolveEntry(e[n - 1].1, reg);
    EntryOutcome(e[n - 1].1, reg);
    assert ResolvePrefix(node, n, reg).tree.entries == r'.tree.entries[n - 1 := (e[n - 1].0, s.tree)];
    assert ResolvePrefix(node, n, reg).loads == r'.loads + s.loads;
  }

  /** The walk stops at key `n - 1`; a helper for PrefixOutcome. */
  lemma {:induction false} PrefixStopsHere(node: Value, n: nat, reg: Registry)
    requires node.Dict? && 0 < n <= |node.entries|
    requires ResolvePrefix(node, n - 1, reg).failure.None?
    requires n - 1 <= FirstBad(node.entries, reg)
    requires ResolvedUpTo(node.entries, ResolvePrefix(node, n - 1, reg).tree.entries, n - 1, reg)
    requires ResolvePrefix(node, n - 1, reg).loads == MentionsPrefix(node, n - 1)
    requires ResolveEntry(node.entries[n - 1].1, reg).failure.Some?
    ensures ResolvePrefix(node, n, reg).failure.Some? && FirstBad(node.entries, reg) == n - 1
    ensures StoppedAt(node, ResolvePrefix(node, n, reg), n - 1, reg)
    decreases node, n, 0
  {
    var e := node.entries;
    EntryOutcome(e[n - 1].1, reg);
    var r := ResolvePrefix(node, n, reg);
    var r' := ResolvePrefix(node, n - 1, reg);
    var s := ResolveEntry(e[n - 1].1, reg);
    assert r.tree.entries == r'.tree.entries[n - 1 := (e[n - 1].0, s.tree)];
    assert ResolvedUpTo(e, r.tree.entries, n - 1, reg);
  }

  /** The first `n` values of `cur` are the reference results for `e`. */
  ghost predicate ResolvedUpTo(e: seq<(string, Value)>, cur: seq<(string, Value)>, n: nat, reg: Registry)
    requires n <= |e| == |cur|
  {
    forall i :: 0 <= i < n ==> cur[i].1 == Resolved(e[i].1, reg)
  }

  /** The walk of the mapping `node` stopped at index `j`: the keys before it
      are resolved, the keys after it untouched, the value at `j` stopped at
      its culprit, which the error reports, and the names before the culprit
      loaded. */
  ghost predicate StoppedAt(node: Value, r: Resolution, j: nat, reg: Registry)
    requires node.Dict?
  {
    var e := node.entries;
    r.tree.Dict? && j < |e| == |r.tree.entries| &&
    ResolvedUpTo(e, r.tree.entries, j, reg) &&
    (forall i :: j < i < |e| ==> r.tree.entries[i] == e[i]) &&
    (!e[j].1.Dict? ==> r.tree.entries[j] == e[j]) &&
    r.failure.Some? && r.failure.value.UnknownPlugin? && !Known(reg, r.failure.value.plugin) &&
    !AllKnown(e[j].1, reg) &&
    r.tree.entries[j] == (e[j].0, Stopped(e[j].1, reg)) &&
    r.failure.value.plugin == Culprit(e[j].1, reg) &&
    r.loads == MentionsPrefix(node, j) + LoadedBefore(e[j].1, reg)
  }

  /** Replacing the value at index `k` keeps the facts about the other
      indices; a helper for PrefixShape. */
  lemma {:induction false} EntryStep(e: seq<(string, Value)>, cur: seq<(string, Value)>, k: nat, t: Value, reg: Registry)
    requires |cur| == |e| && k < |e|
    requires forall i :: 0 <= i < |e| ==> Mirrors(e[i].1, cur[i].1)
    requires forall i :: 0 <= i < |e| ==> cur[i].0 == e[i].0
    requires Mirrors(e[k].1, t)
    ensures var upd := cur[k := (e[k].0, t)];
      (forall i :: 0 <= i < |e| ==> Mirrors(e[i].1, upd[i].1)) &&
      (forall i :: 0 <= i < |e| && i != k ==> upd[i] == cur[i]) &&
      upd[k] == (e[k].0, t)
  {
  }

  lemma {:induction false} MirrorsRefl(v: Value)
    ensures Mirrors(v, v)
    decreases v
  {
    match v
    case Dict(e) =>
      forall i | 0 <= i < |e| ensures Mirrors(e[i].1, e[i].1) {
        MirrorsRefl(e[i].1);
      }
    case _ =>
  }

  // ----- what one call of the resolver promises -----

  /** Resolution succeeds exactly when every referenced name is listed, and
      then leaves the all-or-nothing result, having loaded every reference
      once, in walk order (a name referenced twice is loaded twice). */
  lemma {:induction false} ResolveSucceedsIff(plugins: Value, reg: Registry)
    requires plugins.Dict?
    ensures var r := Resolve(plugins, reg);
      (r.failure.None? <==> AllKnown(plugins, reg)) &&
      (r.failure.None? ==> r.tree == Resolved(plugins, reg) && r.loads == Mentions(plugins))
  {
    EntryOutcome(plugins, reg);
  }

  /** Whatever happens, the spec keeps its shape, and `load_plugin` is only
      ever called on listed names. */
  lemma {:induction false} ResolveKeepsShape(plugins: Value, reg: Registry)
    ensures var r := Resolve(plugins, reg);
      Mirrors(plugins, r.tree) && (forall x :: x in r.loads ==> x in reg.names)
  {
    if plugins.Dict? {
      EntryShape(plugins, reg);
    }
  }

  /** On an unknown name the walk stops at the first key whose value holds
      one: earlier keys are already replaced, later keys are untouched, a
      failing list or name keeps its original value and a failing nested
      mapping is left stopped in turn; the error names the first unlisted
      reference in walk order, and every reference before it was loaded. */
  lemma {:induction false} ResolvePartialFailure(plugins: Value, reg: Registry)
    requires plugins.Dict?
    requires Resolve(plugins, reg).failure.Some?
    ensures var r := Resolve(plugins, reg); var e := plugins.entries; var j := FirstBad(e, reg);
      r.tree.Dict? && j < |e| && |r.tree.entries| == |e| &&
      (forall i :: 0 <= i < j ==> r.tree.entries[i] == (e[i].0, Resolved(e[i].1, reg))) &&
      (forall i :: j < i < |e| ==> r.tree.entries[i] == e[i]) &&
      (!e[j].1.Dict? ==> r.tree.entries[j] == e[j]) &&
      r.failure.value.UnknownPlugin? && !Known(reg, r.failure.value.plugin) &&
      !AllKnown(e[j].1, reg) &&
      r.tree.entries[j] == (e[j].0, Stopped(e[j].1, reg)) &&
      r.failure.value.plugin == Culprit(e[j].1, reg) &&
      r.loads == MentionsPrefix(plugins, j) + LoadedBefore(e[j].1, reg)
  {
    PrefixOutcome(plugins, |plugins.entries|, reg);
  }

  /** The culprit is the first unlisted reference in walk order: it is not
      a listed plugin, every name loaded before it is listed, and those names
      followed by the culprit's begin the references of `v`. */
  lemma {:induction false} CulpritFirst(v: Value, reg: Registry)
    requires !AllKnown(v, reg)
    ensures !Known(reg, Culprit(v, reg))
    ensures forall x :: x in LoadedBefore(v, reg) ==> x in reg.names
    ensures LoadedBefore(v, reg) + [NameOf(Culprit(v, reg))] <= Mentions(v)
    decreases v
  {
    match v
    case Dict(e) =>
      var j := FirstBad(e, reg);
      CulpritFirst(e[j].1, reg);
      KnownMentionsListed(v, j, reg);
      MentionsPrefixGrows(v, j + 1, |e|);
      assert MentionsPrefix(v, j + 1) == MentionsPrefix(v, j) + Mentions(e[j].1);
    case List(items) =>
      var k := FirstUnknown(items, reg);
      NamesKnown(items, reg, k);
      assert Names(items[..k]) + [NameOf(items[k])] == Names(items)[..k + 1];
    case _ =>
  }

  /** The references of fully listed values are listed names. */
  lemma {:induction false} AllKnownMentionsListed(v: Value, reg: Registry)
    requires AllKnown(v, reg)
    ensures forall x :: x in Mentions(v) ==> x in reg.names
    decreases v
  {
    match v
    case Dict(e) => KnownMentionsListed(v, |e|, reg);
    case List(items) =>
      NamesKnown(items, reg, |items|);
      assert items[..|items|] == items;
    case _ =>
  }

  lemma {:induction false} KnownMentionsListed(node: Value, n: nat, reg: Registry)
    requires node.Dict? && n <= |node.entries|
    requires forall i :: 0 <= i < n ==> AllKnown(node.entries[i].1, reg)
    ensures forall x :: x in MentionsPrefix(node, n) ==> x in reg.names
    decreases node, n
  {
    if n > 0 {
      KnownMentionsListed(node, n - 1, reg);
      AllKnownMentionsListed(node.entries[n - 1].1, reg);
    }
  }

  lemma {:induction false} MentionsPrefixGrows(node: Value, m: nat, n: nat)
    requires node.Dict? && m <= n <= |node.entries|
    ensures MentionsPrefix(node, m) <= MentionsPrefix(node, n)
    decreases n
  {
    if m < n {
      MentionsPrefixGrows(node, m, n - 1);
    }
  }

  /** One more name of a list checked and loaded; a helper for LoadPlugins. */
  lemma ListStep(items: seq<Value>, j: nat, reg: Registry)
    requires j < |items|
    ensures Handles(items[..j + 1], reg) == Handles(items[..j], reg) + [Plugin(reg.load(NameOf(items[j])))]
    ensures Names(items[..j + 1]) == Names(items[..j]) + [NameOf(items[j])]
  {
    assert items[..j + 1] == items[..j] + [items[j]];
  }

  /** Visiting key `i` after a clean prefix: the step the loop of
      LoadPlugins takes. */
  lemma {:induction false} VisitKey(plugins: Value, i: nat, entries: seq<(string, Value)>, loads: seq<string>, reg: Registry)
    requires plugins.Dict? && i < |plugins.entries|
    requires ResolvePrefix(plugins, i, reg) == Resolution(Dict(entries), None, loads)
    ensures var s := ResolveEntry(plugins.entries[i].1, reg);
      ResolvePrefix(plugins, i + 1, reg) ==
        Resolution(Dict(entries[i := (plugins.entries[i].0, s.tree)]), s.failure, loads + s.loads)
  {
  }

  /** When the walk stops at key `i`, that is the outcome of the call. */
  lemma {:induction false} StopAtKey(plugins: Value, i: nat, reg: Registry)
    requires plugins.Dict? && i < |plugins.entries|
    requires ResolvePrefix(plugins, i + 1, reg).failure.Some?
    ensures Resolve(plugins, reg) == ResolvePrefix(plugins, i + 1, reg)
  {
    FailureSticks(plugins, i + 1, |plugins.entries|, reg);
  }

  // ----- the resolver itself -----

  /** `Config.__load_plugins`: returns the mapping as the in-place walk
      leaves it, the error raised (if any) and the names loaded. */
  method LoadPlugins(plugins: Value, reg: Registry) returns (tree: Value, failure: Option<LoadError>, loads: seq<string>)
    ensures Resolution(tree, failure, loads) == Resolve(plugins, reg)
    decreases plugins
  {
    tree, failure, loads := plugins, None, [];
    if !Truthy(plugins) {
      return;
    }
    if !plugins.Dict? {
      failure := Some(NoItems(plugins));
      return;
    }
    var entries := plugins.entries;
    var i := 0;
    while i < |entries|
      invariant 0 <= i <= |entries| == |plugins.entries|
      invariant ResolvePrefix(plugins, i, reg) == Resolution(Dict(entries), None, loads)
    {
      var (parseType, plus) := plugins.entries[i];
      ghost var before, loadsBefore := entries, loads;
      if plus.List? {
        var pluginObjs := [];
        var j := 0;
        while j < |plus.items|
          invariant 0 <= j <= |plus.items|
          invariant forall k :: 0 <= k < j ==> Known(reg, plus.items[k])
          invariant pluginObjs == Handles(plus.items[..j], reg)
          invariant loads == loadsBefore + Names(plus.items[..j])
        {
          var plugin := plus.items[j];
          if !(plugin.Str? && plugin.text in reg.names) {
            FirstUnknownAt(plus.items, reg, j);
            VisitKey(plugins, i, before, loadsBefore, reg);
            StopAtKey(plugins, i, reg);
            assert before[i := (parseType, plus)] == before;
            tree, failure := Dict(entries), Some(UnknownPlugin(plugin));
            return;
          }
          ListStep(plus.items, j, reg);
          pluginObjs := pluginObjs + [Plugin(reg.load(plugin.text))];
          loads := loads + [plugin.text];
          j := j + 1;
        }
        FirstUnknownAt(plus.items, reg, j);
        assert plus.items[..j] == plus.items;
        entries := entries[i := (parseType, List(pluginObjs))];
      }
      VisitKey(plugins, i, before, loadsBefore, reg);
      if plus.Str? {
        if plus.text !in reg.names {
          StopAtKey(plugins, i, reg);
          assert before[i := (parseType, plus)] == before;
          tree, failure := Dict(entries), Some(UnknownPlugin(plus));
          return;
        }
        var pluginObj := Plugin(reg.load(plus.text));
        loads := loads + [plus.text];
        entries := entries[i := (parseType, pluginObj)];
      }
      if plus.Dict? {
        var sub, subFailure, subLoads := LoadPlugins(plus, reg);
        entries := entries[i := (parseType, sub)];
        loads := loads + subLoads;
        if subFailure.Some? {
          StopAtKey(plugins, i, reg);
          tree, failure := Dict(entries), subFailure;
          return;
        }
      }
      if !plus.List? && !plus.Str? && !plus.Dict? {
        assert before[i := (parseType, plus)] == before;
      }
      i := i + 1;
    }
    tree := Dict(entries);
  }
}
