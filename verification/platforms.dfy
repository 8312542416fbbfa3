/** The platforms the CLI installs into: each has a directory and, per
    component kind, a sub-directory or nothing when the platform does not
    support that kind. */
module Platforms {

  import opened Base

  datatype Platform = Platform(name: string, dir: string, skills: string,
                               agents: Option<string>, commands: Option<string>, description: string)

  /** The table, in its declaration order. */
  const Table: seq<(string, Platform)> := [
    ("claude", Platform("Claude Code", ".claude", "skills", Some("agents"), Some("commands"), "Anthropic Claude Code")),
    ("gemini", Platform("Gemini CLI", ".gemini", "skills", Some("agents"), None, "Google Gemini CLI")),
    ("antigravity", Platform("Antigravity", ".agent", "skills", None, None, "Google Antigravity IDE")),
    ("codex", Platform("Codex CLI", ".agents", "skills", None, None, "OpenAI Codex CLI")),
    ("opencode", Platform("OpenCode", ".opencode", "skills", Some("agents"), Some("commands"), "OpenCode AI")),
    ("agents", Platform("Universal (.agents)", ".agents", "skills", None, None, "Cross-platform .agents standard"))
  ]

  /** `Object.keys(PLATFORMS)`. */
  function Keys(table: seq<(string, Platform)>): (names: seq<string>)
    ensures |names| == |table|
    ensures forall k :: 0 <= k < |table| ==> names[k] == table[k].0
  {
    seq(|table|, k requires 0 <= k < |table| => table[k].0)
  }

  const PlatformNames: seq<string> := Keys(Table)

  const DefaultPlatform: string := "claude"

  /** `PLATFORMS[name]`: the entry under that key. */
  function Lookup(table: seq<(string, Platform)>, name: string): (r: Option<Platform>)
    ensures r.None? <==> name !in Keys(table)
    ensures r.Some? ==> exists k :: 0 <= k < |table| && table[k] == (name, r.value)
  {
    if table == [] then None
    else if table[0].0 == name then Some(table[0].1)
    else
      var r := Lookup(table[1..], name);
      assert forall k :: 0 < k < |table| ==> table[k] == table[1..][k - 1];
      assert Keys(table) == [table[0].0] + Keys(table[1..]);
      r
  }

  /** `names.join(', ')`. */
  function CommaList(names: seq<string>): string {
    if names == [] then "" else if |names| == 1 then names[0] else names[0] + ", " + CommaList(names[1..])
  }

  /** `getPlatformConfig`: the entry, or the error naming the valid
      platforms. */
  function GetPlatformConfig(name: string): (r: Result<Platform, string>)
    ensures r.Ok? <==> name in PlatformNames
    ensures r.Ok? ==> exists k :: 0 <= k < |Table| && Table[k] == (name, r.value)
    ensures r.Err? ==> r.error == "Unknown platform '" + name + "'. Valid platforms: " + CommaList(PlatformNames)
  {
    match Lookup(Table, name)
    case Some(p) => Ok(p)
    case None => Err("Unknown platform '" + name + "'. Valid platforms: " + CommaList(PlatformNames))
  }

  /** `getTargetDir`: the platform directory under `targetPath`; it fails
      exactly when the platform is unknown. */
  function GetTargetDir(targetPath: string, platform: string): (r: Result<string, string>)
    ensures r.Err? <==> GetPlatformConfig(platform).Err?
    ensures r.Err? ==> r == Err(GetPlatformConfig(platform).error)
    ensures r.Ok? ==> r.value == targetPath + "/" + GetPlatformConfig(platform).value.dir
  {
    match GetPlatformConfig(platform)
    case Ok(p) => Ok(targetPath + "/" + p.dir)
    case Err(e) => Err(e)
  }

  /** The table's keys are the six names, without repeats, and the default
      is one of them. */
  lemma NamesAreTheKeys()
    ensures PlatformNames == ["claude", "gemini", "antigravity", "codex", "opencode", "agents"]
    ensures forall i, j :: 0 <= i < j < |PlatformNames| ==> PlatformNames[i] != PlatformNames[j]
    ensures DefaultPlatform in PlatformNames
  {
  }

  /** What each platform supports: skills everywhere under `skills`;
      commands only on claude and opencode; agents only on claude, gemini
      and opencode. */
  lemma SupportTable()
    ensures forall k :: 0 <= k < |Table| ==> Table[k].1.skills == "skills"
    ensures forall k :: 0 <= k < |Table| ==> (Table[k].1.commands.Some? <==> Table[k].0 in {"claude", "opencode"})
    ensures forall k :: 0 <= k < |Table| ==> (Table[k].1.agents.Some? <==> Table[k].0 in {"claude", "gemini", "opencode"})
    ensures forall k :: 0 <= k < |Table| && Table[k].1.agents.Some? ==> Table[k].1.agents == Some("agents")
    ensures forall k :: 0 <= k < |Table| && Table[k].1.commands.Some? ==> Table[k].1.commands == Some("commands")
  {
  }

  /** With distinct keys, looking up the key at position `k` finds that
      entry. */
  lemma {:induction false} LookupAt(table: seq<(string, Platform)>, k: nat)
    requires k < |table|
    requires forall i, j :: 0 <= i < j < |table| ==> table[i].0 != table[j].0
    ensures Lookup(table, table[k].0) == Some(table[k].1)
  {
    if k > 0 {
      assert table[0].0 != table[k].0;
      assert table[1..][k - 1] == table[k];
      LookupAt(table[1..], k - 1);
    }
  }

  /** Every platform name yields its own entry. */
  lemma ConfigOfEachPlatform(k: nat)
    requires k < |Table|
    ensures GetPlatformConfig(Table[k].0) == Ok(Table[k].1)
  {
    NamesAreTheKeys();
    LookupAt(Table, k);
  }

  /** `codex` and `agents` install into the same directory, `.agents`;
      `openclaw`, which the Korean help text lists, is not a platform. */
  lemma SharedAndMissing(targetPath: string)
    ensures GetTargetDir(targetPath, "codex").Ok?
    ensures GetTargetDir(targetPath, "codex") == GetTargetDir(targetPath, "agents")
    ensures GetPlatformConfig("codex").value.dir == ".agents"
    ensures GetPlatformConfig("openclaw").Err?
    ensures GetTargetDir(targetPath, "openclaw").Err?
  {
    CodexAndAgents();
    OpenclawMissing();
  }

  /** The entries of `codex` and `agents`. */
  lemma CodexAndAgents()
    ensures GetPlatformConfig("codex") == Ok(Table[3].1)
    ensures GetPlatformConfig("agents") == Ok(Table[5].1)
    ensures Table[3].1.dir == Table[5].1.dir == ".agents"
  {
    ConfigOfEachPlatform(3);
    ConfigOfEachPlatform(5);
  }

  /** `openclaw` is none of the keys. */
  lemma OpenclawMissing()
    ensures GetPlatformConfig("openclaw").Err?
  {
    NamesAreTheKeys();
    var o := "openclaw";
    assert o[0] == 'o' && o[5] == 'l';
    forall k | 0 <= k < |PlatformNames| ensures PlatformNames[k] != o {
      var n := PlatformNames[k];
      if k == 4 { assert n[5] == 'o'; } else { assert n[0] != 'o'; }
    }
  }
}
