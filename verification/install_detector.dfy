/** Which registry plugins are already installed under a platform
    directory, read off the set of paths that exist. */
module InstallDetector {

  import opened Base
  import opened Registry
  import opened Platforms

  /** What was found for one plugin. */
  datatype Detection = Detection(installed: bool, agents: seq<string>, commands: seq<string>, skills: seq<string>)

  /** The names whose `<dir>/<name><suffix>` exists, in their order. */
  function Present(fs: Fs, dir: string, names: seq<string>, suffix: string): (found: seq<string>)
    ensures forall x :: x in found <==> x in names && PathJoin(dir, x + suffix) in fs
    ensures Sublist(found, names)
  {
    if names == [] then []
    else
      var rest := Present(fs, dir, names[1..], suffix);
      if PathJoin(dir, names[0] + suffix) in fs then [names[0]] + rest else rest
  }

  /** The agents (or commands) found: nothing unless the platform has that
      sub-directory, the plugin declares some, and the plugin's own
      directory exists under it. */
  function FoundFiles(fs: Fs, baseDir: string, sub: Option<string>, pluginName: string, declared: seq<string>): seq<string> {
    if Truthy(sub) && |declared| > 0 && PathJoin(PathJoin(baseDir, sub.value), pluginName) in fs then
      Present(fs, PathJoin(PathJoin(baseDir, sub.value), pluginName), declared, ".md")
    else []
  }

  /** One plugin's entry. Skills are looked up by their own name, not under
      the plugin's name. */
  function DetectOne(fs: Fs, plugin: Plugin, baseDir: string, platform: Platform): (d: Detection)
    ensures d.installed <==> d.agents != [] || d.commands != [] || d.skills != []
    ensures var c := plugin.components.GetOr(Components(None, None, None));
      && Sublist(d.agents, Listed(c.agents))
      && Sublist(d.commands, Listed(c.commands))
      && Sublist(d.skills, Listed(c.skills))
      && (!Truthy(platform.agents) ==> d.agents == [])
      && (!Truthy(platform.commands) ==> d.commands == [])
      && (forall s :: s in d.skills <==> s in Listed(c.skills) && PathJoin(PathJoin(baseDir, platform.skills), s) in fs)
  {
    var c := plugin.components.GetOr(Components(None, None, None));
    var agents := FoundFiles(fs, baseDir, platform.agents, plugin.name, Listed(c.agents));
    var commands := FoundFiles(fs, baseDir, platform.commands, plugin.name, Listed(c.commands));
    var skills := Present(fs, PathJoin(baseDir, platform.skills), Listed(c.skills), "");
    assert forall s :: s + "" == s;
    Detection(agents != [] || commands != [] || skills != [], agents, commands, skills)
  }

  /** `result.set(names[k], values[k])` for each `k` in order. */
  function SetAll<V>(names: seq<string>, values: seq<V>): map<string, V>
    requires |names| == |values|
  {
    if names == [] then map[]
    else
      var n := |names| - 1;
      SetAll(names[..n], values[..n])[names[n] := values[n]]
  }

  /** Every name gets an entry. */
  lemma {:induction false} SetAllHas<V>(names: seq<string>, values: seq<V>, k: nat)
    requires |names| == |values| && k < |names|
    ensures names[k] in SetAll(names, values)
  {
    var n := |names| - 1;
    if k < n {
      assert names[..n][k] == names[k];
      SetAllHas(names[..n], values[..n], k);
    }
  }

  /** Every entry is under one of the names. */
  lemma {:induction false} SetAllFrom<V>(names: seq<string>, values: seq<V>, x: string)
    requires |names| == |values| && x in SetAll(names, values)
    ensures exists k :: 0 <= k < |names| && names[k] == x
  {
    var n := |names| - 1;
    if x != names[n] {
      SetAllFrom(names[..n], values[..n], x);
      var k :| 0 <= k < n && names[..n][k] == x;
      assert names[k] == x;
    }
  }

  /** The entry under a name is the value paired with its last
      occurrence. */
  lemma {:induction false} SetAllLast<V>(names: seq<string>, values: seq<V>, k: nat)
    requires |names| == |values| && k < |names|
    requires forall j :: k < j < |names| ==> names[j] != names[k]
    ensures names[k] in SetAll(names, values) && SetAll(names, values)[names[k]] == values[k]
  {
    var n := |names| - 1;
    if k < n {
      assert names[..n][k] == names[k] && values[..n][k] == values[k];
      assert forall j :: k < j < n ==> names[..n][j] == names[j];
      SetAllLast(names[..n], values[..n], k);
    }
  }

  /** `detectInstalledPlugins`: one entry per plugin name; when two
      entries share a name, the later one's result stands. */
  function DetectInstalledPlugins(fs: Fs, plugins: seq<Plugin>, baseDir: string, platform: Platform): (m: map<string, Detection>)
    ensures forall k :: 0 <= k < |plugins| ==> plugins[k].name in m
    ensures forall n :: n in m ==> exists k :: 0 <= k < |plugins| && plugins[k].name == n
    ensures forall k :: 0 <= k < |plugins| && (forall j :: k < j < |plugins| ==> plugins[j].name != plugins[k].name) ==>
      m[plugins[k].name] == DetectOne(fs, plugins[k], baseDir, platform)
  {
    var names := seq(|plugins|, k requires 0 <= k < |plugins| => plugins[k].name);
    var found := seq(|plugins|, k requires 0 <= k < |plugins| => DetectOne(fs, plugins[k], baseDir, platform));
    var m := SetAll(names, found);
    assert forall k :: 0 <= k < |plugins| ==> plugins[k].name in m by {
      forall k | 0 <= k < |plugins| ensures plugins[k].name in m {
        SetAllHas(names, found, k);
      }
    }
    assert forall n :: n in m ==> exists k :: 0 <= k < |plugins| && plugins[k].name == n by {
      forall n | n in m ensures exists k :: 0 <= k < |plugins| && plugins[k].name == n {
        SetAllFrom(names, found, n);
      }
    }
    assert forall k :: 0 <= k < |plugins| && (forall j :: k < j < |plugins| ==> plugins[j].name != plugins[k].name) ==>
      m[plugins[k].name] == DetectOne(fs, plugins[k], baseDir, platform)
    by {
      forall k | 0 <= k < |plugins| && (forall j :: k < j < |plugins| ==> plugins[j].name != plugins[k].name)
        ensures m[plugins[k].name] == DetectOne(fs, plugins[k], baseDir, platform)
      {
        SetAllLast(names, found, k);
      }
    }
    m
  }

  /** The file system keeps every parent of every path it holds. */
  ghost predicate ParentsExist(fs: Fs) {
    forall a, b :: PathJoin(a, b) in fs ==> a in fs
  }

  /** When parents exist with their children, the directory test adds
      nothing: an agent is listed exactly when the platform has an agents
      directory and the agent's file exists (likewise commands). */
  lemma {:induction false} FilesExactly(fs: Fs, baseDir: string, sub: Option<string>, pluginName: string, declared: seq<string>, x: string)
    requires ParentsExist(fs)
    ensures x in FoundFiles(fs, baseDir, sub, pluginName, declared) <==>
      Truthy(sub) && x in declared && PathJoin(PathJoin(PathJoin(baseDir, sub.value), pluginName), x + ".md") in fs
  {
    if Truthy(sub) && x in declared && PathJoin(PathJoin(PathJoin(baseDir, sub.value), pluginName), x + ".md") in fs {
      assert PathJoin(PathJoin(baseDir, sub.value), pluginName) in fs;
    }
  }

  /** When every name's path exists, every name is found. */
  lemma {:induction false} PresentAll(fs: Fs, dir: string, names: seq<string>, suffix: string)
    requires forall k :: 0 <= k < |names| ==> PathJoin(dir, names[k] + suffix) in fs
    ensures Present(fs, dir, names, suffix) == names
  {
    if names != [] {
      assert forall k :: 0 < k < |names| ==> names[1..][k - 1] == names[k];
      PresentAll(fs, dir, names[1..], suffix);
    }
  }

  /** When the plugin's directory and every declared file exist, every
      declared agent (or command) is found, in order. */
  lemma FoundAll(fs: Fs, baseDir: string, sub: Option<string>, pluginName: string, declared: seq<string>)
    requires Truthy(sub)
    requires |declared| > 0 ==> PathJoin(PathJoin(baseDir, sub.value), pluginName) in fs
    requires forall k :: 0 <= k < |declared| ==> PathJoin(PathJoin(PathJoin(baseDir, sub.value), pluginName), declared[k] + ".md") in fs
    ensures FoundFiles(fs, baseDir, sub, pluginName, declared) == declared
  {
    if |declared| > 0 {
      PresentAll(fs, PathJoin(PathJoin(baseDir, sub.value), pluginName), declared, ".md");
    }
  }

  /** When no name's path exists, nothing is found. */
  lemma PresentNone(fs: Fs, dir: string, names: seq<string>, suffix: string)
    requires forall k :: 0 <= k < |names| ==> PathJoin(dir, names[k] + suffix) !in fs
    ensures Present(fs, dir, names, suffix) == []
  {
  }
}
