/** Depth-capped flattening of the configuration document into the
    attribute namespace of the configuration object (`Config.__set_property`).

    The walk is described as the sequence of `setattr` calls it makes
    (Bindings), and the namespace it leaves as those calls applied in
    order to the namespace it started from (Apply): a later call on the
    same name overwrites an earlier one. */
module Flattening {
  import opened Values

  /** `sys.maxsize` on a 64-bit interpreter: the depth of a field that has
      no entry in the depth table. */
  const MaxSize: int := 0x7FFF_FFFF_FFFF_FFFF

  /** The depth table the configuration object is created with: the
      `plugins` branch is bound whole. */
  const SourceFieldsDepth: map<string, int> := map["plugins" := 1]

  /** A top-level key is used as is; a nested key is joined to its parent's
      qualified name with an underscore. */
  function FullName(prefix: string, name: string): string
  {
    if prefix == "" then name else prefix + "_" + name
  }

  /** The depth the table gives a qualified name, `sys.maxsize` when absent. */
  function LookupDepth(table: map<string, int>, fullName: string): int
  {
    if fullName in table then table[fullName] else MaxSize
  }

  /** The depth an entry is walked with: the depth handed down by the
      caller, or else the table's depth for the entry's qualified name. */
  function EntryDepth(table: map<string, int>, prefix: string, name: string, depth: Option<int>): int
  {
    if depth.Some? then depth.value else LookupDepth(table, FullName(prefix, name))
  }

  /** The depth the code as written walks a whole document with: the lookup
      for the FIRST key, reused for every later key. */
  function FirstKeyDepth(table: map<string, int>, document: Value): int
  {
    if document.Dict? && |document.entries| > 0 then LookupDepth(table, FullName("", document.entries[0].0))
    else MaxSize
  }

  /** The `setattr` calls made while walking the first `n` entries of the
      mapping `node` under `prefix`, in order; `depth` is None on a call
      from the loader and the remaining depth on a recursive call. */
  function Bindings(table: map<string, int>, node: Value, n: nat, prefix: string, depth: Option<int>): seq<(string, Value)>
    requires node.Dict? && n <= |node.entries|
    decreases node, n
  {
    if n == 0 then []
    else
      var (name, value) := node.entries[n - 1];
      Bindings(table, node, n - 1, prefix, depth) + EntryBindings(table, prefix, name, value, EntryDepth(table, prefix, name, depth))
  }

  /** The `setattr` calls for one entry: a mapping value is descended into
      while the depth exceeds 1; any other value, and a mapping at depth 1
      or less, is bound whole under the entry's qualified name. */
  function EntryBindings(table: map<string, int>, prefix: string, name: string, value: Value, depth: int): seq<(string, Value)>
    decreases value
  {
    var fullName := FullName(prefix, name);
    if value.Dict? && depth > 1 then Bindings(table, value, |value.entries|, fullName, Some(depth - 1))
    else [(fullName, value)]
  }

  /** The namespace after the `setattr` calls `t`, in order, on `attrs`. */
  function Apply(attrs: map<string, Value>, t: seq<(string, Value)>): map<string, Value>
    decreases |t|
  {
    if t == [] then attrs else Apply(attrs[t[0].0 := t[0].1], t[1..])
  }

  /** Flattening a whole document, as the loader calls it (no prefix, no
      depth yet, so each top-level key gets its own depth): a falsy document
      binds nothing, a truthy document that is not a mapping fails (None)
      before any binding. */
  function Flatten(attrs: map<string, Value>, document: Value, table: map<string, int>): Option<map<string, Value>>
  {
    if document.Dict? then Some(Apply(attrs, Bindings(table, document, |document.entries|, "", None)))
    else if Truthy(document) then None
    else Some(attrs)
  }

  /** Flattening as the code is written: the depth of the first key is
      kept for all later top-level keys. */
  function FlattenAsWritten(attrs: map<string, Value>, document: Value, table: map<string, int>): (r: Option<map<string, Value>>)
    ensures r.None? <==> Truthy(document) && !document.Dict?
    ensures r.Some? ==> forall k :: k in attrs ==> k in r.value
    ensures r.Some? && !Truthy(document) ==> r.value == attrs
  {
    if document.Dict? then
      var t := Bindings(table, document, |document.entries|, "", Some(FirstKeyDepth(table, document)));
      ApplyOrigin(attrs, t);
      Some(Apply(attrs, t))
    else if Truthy(document) then None
    else Some(attrs)
  }

  /** Every mapping nested in `v` is reached at a remaining depth above 1,
      so the walk at depth `d` descends into all of them. */
  ghost predicate NestedWithin(v: Value, d: int)
    decreases v
  {
    v.Dict? ==>
      forall i :: 0 <= i < |v.entries| ==>
        (v.entries[i].1.Dict? ==> d > 1 && NestedWithin(v.entries[i].1, d - 1))
  }

  // ----- the namespace: applying setattr calls -----

  lemma {:induction false} ApplyAppend(attrs: map<string, Value>, t1: seq<(string, Value)>, t2: seq<(string, Value)>)
    ensures Apply(attrs, t1 + t2) == Apply(Apply(attrs, t1), t2)
    decreases |t1|
  {
    if t1 == [] {
      assert t1 + t2 == t2;
    } else {
      assert (t1 + t2)[0] == t1[0];
      assert (t1 + t2)[1..] == t1[1..] + t2;
      ApplyAppend(attrs[t1[0].0 := t1[0].1], t1[1..], t2);
    }
  }

  /** Bindings only add names; a name no call writes keeps its value, and
      every value in the namespace comes from the old namespace or from a
      call. */
  lemma {:induction false} ApplyOrigin(attrs: map<string, Value>, t: seq<(string, Value)>)
    ensures forall k :: k in Apply(attrs, t) <==> (k in attrs || exists j :: 0 <= j < |t| && t[j].0 == k)
    ensures forall k :: k in attrs && (forall j :: 0 <= j < |t| ==> t[j].0 != k) ==> Apply(attrs, t)[k] == attrs[k]
    ensures forall k :: k in Apply(attrs, t) ==> (k in attrs && Apply(attrs, t)[k] == attrs[k]) || (k, Apply(attrs, t)[k]) in t
    decreases |t|
  {
    if t != [] {
      var a' := attrs[t[0].0 := t[0].1];
      ApplyOrigin(a', t[1..]);
      forall k | k in attrs || exists j :: 0 <= j < |t| && t[j].0 == k
        ensures k in Apply(attrs, t)
      {
        if k !in a' {
          var j :| 0 <= j < |t| && t[j].0 == k;
          assert t[1..][j - 1].0 == k;
        }
      }
      forall k | k in Apply(attrs, t)
        ensures k in attrs || exists j :: 0 <= j < |t| && t[j].0 == k
      {
        if k !in attrs {
          if k == t[0].0 {
            assert t[0].0 == k;
          } else {
            assert k !in a' && k in Apply(a', t[1..]);
            var j :| 0 <= j < |t[1..]| && t[1..][j].0 == k;
            assert t[j + 1].0 == k;
          }
        }
      }
      forall k | k in attrs && (forall j :: 0 <= j < |t| ==> t[j].0 != k)
        ensures Apply(attrs, t)[k] == attrs[k]
      {
        assert t[0].0 != k;
        forall j | 0 <= j < |t[1..]| ensures t[1..][j].0 != k {
          assert t[1..][j] == t[j + 1];
        }
      }
    }
  }

  /** Last write wins: the value of the last call on a name is the value the
      namespace holds for it. */
  lemma {:induction false} ApplyLastWins(attrs: map<string, Value>, t: seq<(string, Value)>, i: nat)
    requires i < |t|
    requires forall j :: i < j < |t| ==> t[j].0 != t[i].0
    ensures t[i].0 in Apply(attrs, t) && Apply(attrs, t)[t[i].0] == t[i].1
    decreases |t|
  {
    var a' := attrs[t[0].0 := t[0].1];
    if i == 0 {
      ApplyOrigin(a', t[1..]);
      forall j | 0 <= j < |t[1..]| ensures t[1..][j].0 != t[0].0 {
        assert t[1..][j] == t[j + 1];
      }
    } else {
      forall j | i - 1 < j < |t[1..]| ensures t[1..][j].0 != t[1..][i - 1].0 {
        assert t[1..][j] == t[j + 1];
      }
      ApplyLastWins(a', t[1..], i - 1);
    }
  }

  // ----- the walk: which setattr calls are made -----

  /** At depth 1 or less nothing is descended into: every entry is bound
      whole, under its own qualified name, in order. */
  lemma {:induction false} ShallowBindsVerbatim(table: map<string, int>, node: Value, n: nat, prefix: string, depth: int)
    requires node.Dict? && n <= |node.entries| && depth <= 1
    ensures |Bindings(table, node, n, prefix, Some(depth))| == n
    ensures forall i :: 0 <= i < n ==>
      Bindings(table, node, n, prefix, Some(depth))[i] == (FullName(prefix, node.entries[i].0), node.entries[i].1)
    decreases n
  {
    if n > 0 {
      ShallowBindsVerbatim(table, node, n - 1, prefix, depth);
    }
  }

  /** A value that is not descended into (not a mapping, or a mapping at
      depth 1 or less) is bound verbatim under its qualified name. */
  lemma {:induction false} BoundVerbatim(table: map<string, int>, node: Value, n: nat, prefix: string, depth: Option<int>, i: nat)
    requires node.Dict? && i < n <= |node.entries|
    requires !(node.entries[i].1.Dict? && EntryDepth(table, prefix, node.entries[i].0, depth) > 1)
    ensures (FullName(prefix, node.entries[i].0), node.entries[i].1) in Bindings(table, node, n, prefix, depth)
    decreases n
  {
    if i < n - 1 {
      BoundVerbatim(table, node, n - 1, prefix, depth, i);
    }
  }

  /** Under a non-empty prefix every bound name is the prefix joined with
      `_` to something, so a mapping that is descended into never has its
      own qualified name bound by the descent. */
  lemma {:induction false} NamesUnderPrefix(table: map<string, int>, node: Value, n: nat, prefix: string, depth: Option<int>)
    requires node.Dict? && n <= |node.entries| && prefix != ""
    ensures forall b :: b in Bindings(table, node, n, prefix, depth) ==> prefix + "_" <= b.0 && b.0 != prefix
    decreases node, n
  {
    if n > 0 {
      NamesUnderPrefix(table, node, n - 1, prefix, depth);
      var (name, value) := node.entries[n - 1];
      var fullName := FullName(prefix, name);
      var d := EntryDepth(table, prefix, name, depth);
      assert fullName == (prefix + "_") + name;
      if value.Dict? && d > 1 {
        NamesUnderPrefix(table, value, |value.entries|, fullName, Some(d - 1));
        forall b | b in Bindings(table, value, |value.entries|, fullName, Some(d - 1))
          ensures prefix + "_" <= b.0
        {
          assert fullName + "_" <= b.0;
          assert prefix + "_" <= fullName;
        }
      }
    }
  }

  /** When every nested mapping lies within the depth, the walk reaches the
      leaves: no mapping is ever bound whole. */
  lemma {:induction false} NestedWithinBindsLeaves(table: map<string, int>, node: Value, n: nat, prefix: string, depth: int)
    requires node.Dict? && n <= |node.entries| && NestedWithin(node, depth)
    ensures forall b :: b in Bindings(table, node, n, prefix, Some(depth)) ==> !b.1.Dict?
    decreases node, n
  {
    if n > 0 {
      NestedWithinBindsLeaves(table, node, n - 1, prefix, depth);
      var (name, value) := node.entries[n - 1];
      if value.Dict? {
        assert NestedWithin(value, depth - 1);
        NestedWithinBindsLeaves(table, value, |value.entries|, FullName(prefix, name), depth - 1);
      }
    }
  }

  // ----- as written: the depth table is read for the first key only -----

  /** With the source's table, a document whose first key is `plugins` is
      walked at depth 1 throughout: every top-level key, not only
      `plugins`, is bound whole. */
  lemma {:induction false} PluginsFirstBindsAllWhole(document: Value)
    requires document.Dict? && |document.entries| > 0 && document.entries[0].0 == "plugins"
    ensures var t := Bindings(SourceFieldsDepth, document, |document.entries|, "", Some(FirstKeyDepth(SourceFieldsDepth, document)));
      |t| == |document.entries| && forall i :: 0 <= i < |t| ==> t[i] == document.entries[i]
  {
    ShallowBindsVerbatim(SourceFieldsDepth, document, |document.entries|, "", 1);
  }

  /** ... and then the `plugins` attribute holds the raw plugins mapping. */
  lemma {:induction false} PluginsFirstBindsPlugins(attrs: map<string, Value>, document: Value)
    requires document.Dict? && |document.entries| > 0 && document.entries[0].0 == "plugins"
    requires UniqueKeys(document.entries)
    ensures FlattenAsWritten(attrs, document, SourceFieldsDepth).Some?
    ensures var m := FlattenAsWritten(attrs, document, SourceFieldsDepth).value;
      "plugins" in m && m["plugins"] == document.entries[0].1
  {
    var e := document.entries;
    var t := Bindings(SourceFieldsDepth, document, |e|, "", Some(1));
    PluginsFirstBindsAllWhole(document);
    forall j | 0 < j < |t| ensures t[j].0 != t[0].0 {
      assert t[j] == e[j];
    }
    ApplyLastWins(attrs, t, 0);
  }

  /** Any other first key gives every top-level key the depth `sys.maxsize`,
      so (for any document nested fewer levels than that) no mapping is
      bound whole: the `plugins` attribute can hold a mapping after
      flattening only if `plugins` is the document's first key. */
  lemma {:induction false} PluginsMappingOnlyIfFirst(attrs: map<string, Value>, document: Value)
    requires NestedWithin(document, MaxSize)
    requires "plugins" in attrs && !attrs["plugins"].Dict?
    requires FlattenAsWritten(attrs, document, SourceFieldsDepth).Some?
    ensures var m := FlattenAsWritten(attrs, document, SourceFieldsDepth).value;
      "plugins" in m &&
      (m["plugins"].Dict? ==> document.Dict? && |document.entries| > 0 && document.entries[0].0 == "plugins")
  {
    if document.Dict? {
      var d := FirstKeyDepth(SourceFieldsDepth, document);
      var t := Bindings(SourceFieldsDepth, document, |document.entries|, "", Some(d));
      ApplyOrigin(attrs, t);
      if !(|document.entries| > 0 && document.entries[0].0 == "plugins") {
        assert d == MaxSize;
        NestedWithinBindsLeaves(SourceFieldsDepth, document, |document.entries|, "", d);
      }
    }
  }

  /** The document `{log: {level: debug}, plugins: {parse: [p1]}}`: `plugins`
      is not the first key. */
  const PluginsSecond: Value :=
    Dict([("log", Dict([("level", Str("debug"))])), ("plugins", Dict([("parse", List([Str("p1")]))]))])

  /** As written, the depth of `log` (sys.maxsize) is reused for `plugins`:
      the plugins mapping is flattened into `plugins_parse` and the
      `plugins` attribute stays None, so no plugin is ever resolved. */
  lemma FirstKeyDepthCounterexample()
    ensures FlattenAsWritten(map["plugins" := Null], PluginsSecond, SourceFieldsDepth) ==
      Some(map["plugins" := Null, "log_level" := Str("debug"), "plugins_parse" := List([Str("p1")])])
  {
    var e := PluginsSecond.entries;
    var log := e[0].1;
    var plugins := e[1].1;
    var tb := SourceFieldsDepth;
    assert FirstKeyDepth(tb, PluginsSecond) == MaxSize;
    assert FullName("log", "level") == "log_level";
    assert FullName("plugins", "parse") == "plugins_parse";
    assert EntryBindings(tb, "log", "level", Str("debug"), MaxSize - 1) == [("log_level", Str("debug"))];
    assert Bindings(tb, log, 1, "log", Some(MaxSize - 1)) == [("log_level", Str("debug"))];
    assert Bindings(tb, plugins, 1, "plugins", Some(MaxSize - 1)) == [("plugins_parse", List([Str("p1")]))];
    var t := Bindings(tb, PluginsSecond, 2, "", Some(MaxSize));
    assert t == [("log_level", Str("debug")), ("plugins_parse", List([Str("p1")]))];
    var a := map["plugins" := Null];
    assert Apply(a, t) == Apply(a["log_level" := Str("debug")], t[1..]);
    assert Apply(a["log_level" := Str("debug")], t[1..]) ==
      Apply(a["log_level" := Str("debug")]["plugins_parse" := List([Str("p1")])], []);
  }

  // ----- as intended: one lookup per top-level key -----

  /** "plugins" contains no underscore, so no joined name below another
      non-empty key can be "plugins". */
  lemma {:induction false} OtherKeyNeverBindsPlugins(table: map<string, int>, key: string, value: Value, depth: int)
    requires key != "" && key != "plugins"
    ensures forall b :: b in EntryBindings(table, "", key, value, depth) ==> b.0 != "plugins"
  {
    if value.Dict? && depth > 1 {
      NamesUnderPrefix(table, value, |value.entries|, key, Some(depth - 1));
      forall b | b in EntryBindings(table, "", key, value, depth) ensures b.0 != "plugins" {
        assert (key + "_")[|key|] == '_';
        assert b.0[|key|] == '_';
        assert forall c :: c in "plugins" ==> c != '_';
      }
    }
  }

  /** Calls that never write `k` leave its value alone. */
  lemma {:induction false} ApplyKeeps(attrs: map<string, Value>, t: seq<(string, Value)>, k: string)
    requires k in attrs
    requires forall b :: b in t ==> b.0 != k
    ensures k in Apply(attrs, t) && Apply(attrs, t)[k] == attrs[k]
    decreases |t|
  {
    if t != [] {
      assert t[0] in t;
      assert forall b :: b in t[1..] ==> b in t;
      ApplyKeeps(attrs[t[0].0 := t[0].1], t[1..], k);
    }
  }

  /** After the walk has passed the `plugins` key (index `i`), the
      `plugins` attribute holds the raw plugins mapping: the table gives it
      depth 1, and no later top-level key binds that name. */
  lemma {:induction false} PluginsBoundWhole(attrs: map<string, Value>, document: Value, n: nat, i: nat)
    requires document.Dict? && i < n <= |document.entries| && document.entries[i].0 == "plugins"
    requires UniqueKeys(document.entries)
    requires forall j :: 0 <= j < |document.entries| ==> document.entries[j].0 != ""
    ensures var m := Apply(attrs, Bindings(SourceFieldsDepth, document, n, "", None));
      "plugins" in m && m["plugins"] == document.entries[i].1
    decreases n
  {
    var tb := SourceFieldsDepth;
    var prev := Bindings(tb, document, n - 1, "", None);
    var (name, value) := document.entries[n - 1];
    var d := EntryDepth(tb, "", name, None);
    var added := EntryBindings(tb, "", name, value, d);
    ApplyAppend(attrs, prev, added);
    if n - 1 == i {
      assert added == [("plugins", value)];
      assert Apply(Apply(attrs, prev), added) == Apply(attrs, prev)["plugins" := value];
    } else {
      PluginsBoundWhole(attrs, document, n - 1, i);
      assert name != "plugins";
      OtherKeyNeverBindsPlugins(tb, name, value, d);
      ApplyKeeps(Apply(attrs, prev), added, "plugins");
    }
  }

  /** With one lookup per key, the `plugins` attribute receives the raw
      plugins mapping wherever `plugins` stands in the document (keys being
      distinct and non-empty, as in a YAML mapping of names). */
  lemma {:induction false} FlattenBindsPluginsWhole(attrs: map<string, Value>, document: Value, i: nat)
    requires document.Dict? && i < |document.entries| && document.entries[i].0 == "plugins"
    requires UniqueKeys(document.entries)
    requires forall j :: 0 <= j < |document.entries| ==> document.entries[j].0 != ""
    ensures Flatten(attrs, document, SourceFieldsDepth).Some?
    ensures var m := Flatten(attrs, document, SourceFieldsDepth).value;
      "plugins" in m && m["plugins"] == document.entries[i].1
  {
    PluginsBoundWhole(attrs, document, |document.entries|, i);
  }

  // ----- where the two lookups agree -----

  /** Walking with no depth handed down and walking with the depth `d` make
      the same calls when the table gives every key that depth. */
  lemma {:induction false} SameDepthSameBindings(table: map<string, int>, node: Value, n: nat, prefix: string, d: int)
    requires node.Dict? && n <= |node.entries|
    requires forall i :: 0 <= i < n ==> LookupDepth(table, FullName(prefix, node.entries[i].0)) == d
    ensures Bindings(table, node, n, prefix, None) == Bindings(table, node, n, prefix, Some(d))
    decreases n
  {
    if n > 0 {
      SameDepthSameBindings(table, node, n - 1, prefix, d);
    }
  }

  /** The code as written and the corrected walk flatten a document alike
      when every top-level key has the first key's depth, as when no
      top-level key is listed in the table, or every one is listed with the
      same depth. */
  lemma {:induction false} FlattenAgreement(attrs: map<string, Value>, document: Value, table: map<string, int>)
    requires document.Dict? ==>
      forall i :: 0 <= i < |document.entries| ==>
        LookupDepth(table, document.entries[i].0) == FirstKeyDepth(table, document)
    ensures FlattenAsWritten(attrs, document, table) == Flatten(attrs, document, table)
  {
    if document.Dict? {
      SameDepthSameBindings(table, document, |document.entries|, "", FirstKeyDepth(table, document));
    }
  }
}
