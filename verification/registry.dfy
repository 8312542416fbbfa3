/** The plugin registry entries the CLI works with, and paths over an
    abstract file system: a file system is the set of paths that exist, and
    `path.join` is joining with `/`. */
module Registry {

  import opened Base

  /** The component lists a registry entry declares; a list the entry
      leaves out is None. */
  datatype Components = Components(agents: Option<seq<string>>, commands: Option<seq<string>>, skills: Option<seq<string>>)

  /** A registry entry: its name, the `source` and `path` fields (either
      may be missing) and its components (possibly missing). */
  datatype Plugin = Plugin(name: string, source: Option<string>, path: Option<string>, components: Option<Components>)

  /** A list as `components.x?.length` sees it: a missing list is empty. */
  function Listed(list: Option<seq<string>>): seq<string> {
    list.GetOr([])
  }

  /** An optional string as a JavaScript condition sees it: present and
      not the empty string. */
  predicate Truthy(s: Option<string>) {
    s.Some? && s.value != ""
  }

  /** The set of paths that exist. */
  type Fs = set<string>

  function PathJoin(a: string, b: string): string {
    a + "/" + b
  }

  /** `plugins.find(p => p.name === name)`: the first entry with that
      name. */
  function Find(plugins: seq<Plugin>, name: string): (r: Option<Plugin>)
    ensures r.None? <==> forall k :: 0 <= k < |plugins| ==> plugins[k].name != name
    ensures r.Some? ==> exists k :: (0 <= k < |plugins| && plugins[k] == r.value && r.value.name == name
                                     && forall j :: 0 <= j < k ==> plugins[j].name != name)
  {
    if plugins == [] then None
    else if plugins[0].name == name then Some(plugins[0])
    else
      var r := Find(plugins[1..], name);
      assert forall k :: 0 < k < |plugins| ==> plugins[k] == plugins[1..][k - 1];
      r
  }
}
