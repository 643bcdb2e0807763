/** The configuration object (`class Config`): its attribute namespace is
    filled by flattening the parsed document, then the `plugins` attribute
    is resolved in place against the plugin source. */
module Configuration {
  import opened Values
  import opened Flattening
  import opened Plugins

  datatype ConfigError =
    | RootNotMapping(document: Value)  // a truthy document that is not a mapping has no `.items()`
    | PluginError(error: LoadError)

  class Config {
    /** The instance attributes the configuration binds, by name. */
    var attrs: map<string, Value>
    /** `fields_depth`: how many mapping levels of a field are flattened. */
    const fieldsDepth: map<string, int>

    /** The `plugins` attribute always exists. */
    ghost predicate Valid()
      reads this
    {
      "plugins" in attrs
    }

    /** A fresh configuration: `plugins` is None, the depth table binds the
        `plugins` branch whole. */
    constructor ()
      ensures Valid()
      ensures attrs == map["plugins" := Null] && fieldsDepth == SourceFieldsDepth
    {
      attrs := map["plugins" := Null];
      fieldsDepth := SourceFieldsDepth;
    }

    /** `__set_property`: binds the entries of `properties` under `prefix`.
        A falsy value binds nothing; a truthy value that is not a mapping
        fails (ok is false) before binding anything. An entry is walked with
        the depth handed down or, on a call from the loader, with the depth
        the table gives its own qualified name. */
    method SetProperty(properties: Value, prefix: string, depth: Option<int>) returns (ok: bool)
      requires Valid()
      modifies this
      ensures Valid()
      ensures ok <==> properties.Dict? || !Truthy(properties)
      ensures attrs == if properties.Dict? then
          Apply(old(attrs), Bindings(fieldsDepth, properties, |properties.entries|, prefix, depth))
        else old(attrs)
      decreases properties
    {
      if !Truthy(properties) {
        return true;
      }
      if !properties.Dict? {
        return false;
      }
      ghost var done: seq<(string, Value)> := [];
      var entries := properties.entries;
      var i := 0;
      while i < |entries|
        invariant 0 <= i <= |entries|
        invariant Valid()
        invariant done == Bindings(fieldsDepth, properties, i, prefix, depth)
        invariant attrs == Apply(old(attrs), done)
      {
        var (name, value) := entries[i];
        var fullName := FullName(prefix, name);
        var d := if depth.Some? then depth.value
          else if fullName in fieldsDepth then fieldsDepth[fullName] else MaxSize;
        ghost var added := EntryBindings(fieldsDepth, prefix, name, value, d);
        ApplyAppend(old(attrs), done, added);
        ghost var before := attrs;
        if value.Dict? && d > 1 {
          var _ := SetProperty(value, fullName, Some(d - 1));
        } else {
          attrs := attrs[fullName := value];
          assert Apply(before, added) == Apply(before[fullName := value], []);
        }
        assert attrs == Apply(before, added);
        assert attrs == Apply(old(attrs), done + added);
        done := done + added;
        i := i + 1;
      }
      ok := true;
    }

    /** `__pre_load_plugins`: resolves the `plugins` attribute in place. */
    method PreLoadPlugins(reg: Registry) returns (failure: Option<LoadError>, loads: seq<string>)
      requires Valid()
      modifies this
      ensures Valid()
      ensures var r := Resolve(old(attrs)["plugins"], reg);
        attrs == old(attrs)["plugins" := r.tree] && failure == r.failure && loads == r.loads
    {
      var tree;
      tree, failure, loads := LoadPlugins(attrs["plugins"], reg);
      attrs := attrs["plugins" := tree];
    }

    /** The loading sequence of the constructor that this model covers:
        flatten the parsed document, then resolve the plugins; the first
        error stops it. */
    method Load(document: Value, reg: Registry) returns (error: Option<ConfigError>, loads: seq<string>)
      requires Valid()
      modifies this
      ensures Valid()
      ensures Flatten(old(attrs), document, fieldsDepth).None? ==>
        error == Some(RootNotMapping(document)) && attrs == old(attrs) && loads == []
      ensures Flatten(old(attrs), document, fieldsDepth).Some? ==>
        var m := Flatten(old(attrs), document, fieldsDepth).value;
        "plugins" in m &&
        var r := Resolve(m["plugins"], reg);
        attrs == m["plugins" := r.tree] && loads == r.loads &&
        error == (if r.failure.Some? then Some(PluginError(r.failure.value)) else None)
    {
      var ok := SetProperty(document, "", None);
      if !ok {
        return Some(RootNotMapping(document)), [];
      }
      var failure;
      failure, loads := PreLoadPlugins(reg);
      error := if failure.Some? then Some(PluginError(failure.value)) else None;
    }
  }
}
