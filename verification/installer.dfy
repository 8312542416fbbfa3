/** Installing and uninstalling one plugin into a platform directory, over
    the set of paths that exist. Reading a component from the plugin's
    source (a local copy or the remote repository, whichever is used) is
    abstracted as the set `readable` of source-relative paths that can be
    read, such as `agents/x.md` or `skills/y`. File contents are not
    tracked: writing a file or creating a directory adds its path. */
module Installer {

  import opened Base
  import opened Text
  import opened Registry
  import opened Platforms
  import opened InstallDetector

  // ---------------------------------------------------------------------
  // Source path
  // ---------------------------------------------------------------------

  /** `replace(/^\.\//, '')`: one leading `./` removed. */
  function StripDotSlash(s: string): (r: string)
    ensures StartsWith(s, "./") ==> "./" + r == s
    ensures !StartsWith(s, "./") ==> r == s
  {
    if StartsWith(s, "./") then s[2..] else s
  }

  /** `r` is `s` with one leading `./` removed, if it had one. */
  predicate Stripped(r: string, s: string) {
    if StartsWith(s, "./") then "./" + r == s else r == s
  }

  /** `getSourcePath`: the `source` field if truthy, else the `path`
      field if truthy, each without one leading `./`; else
      `plugins/<name>`. */
  function GetSourcePath(plugin: Plugin): (r: string)
    ensures Truthy(plugin.source) ==> Stripped(r, plugin.source.value)
    ensures !Truthy(plugin.source) && Truthy(plugin.path) ==> Stripped(r, plugin.path.value)
    ensures !Truthy(plugin.source) && !Truthy(plugin.path) ==> r == "plugins/" + plugin.name
  {
    var chosen := if Truthy(plugin.source) then plugin.source.value
                  else if Truthy(plugin.path) then plugin.path.value
                  else "";
    if chosen == "" then "plugins/" + plugin.name else StripDotSlash(chosen)
  }

  // ---------------------------------------------------------------------
  // Component discovery
  // ---------------------------------------------------------------------

  /** A directory entry: its name and whether it is a directory. */
  datatype Entry = Entry(name: string, isDir: bool)

  /** What the plugin's source directories list, in listing order; None
      for a directory that does not exist. */
  datatype Listing = Listing(agentFiles: Option<seq<string>>, commandFiles: Option<seq<string>>,
                             skillEntries: Option<seq<Entry>>)

  const Md: string := ".md"

  /** A markdown file's component name as the source derives it: the
      first `.md` in the name removed, wherever it is. */
  function NameAsWritten(f: string): string {
    ReplaceFirst(f, Md, "")
  }

  /** The names of the `.md` files, as the source derives them. */
  function MdNamesAsWritten(files: seq<string>): seq<string> {
    if files == [] then []
    else (if EndsWith(files[0], Md) then [NameAsWritten(files[0])] else []) + MdNamesAsWritten(files[1..])
  }

  /** The names of the `.md` files with the `.md` extension removed: a
      name is listed exactly when adding `.md` back gives a listed
      file. */
  function MdNames(files: seq<string>): (names: seq<string>)
    ensures |names| <= |files|
    ensures forall x :: x in names <==> x + Md in files
  {
    if files == [] then []
    else
      var f := files[0];
      var rest := MdNames(files[1..]);
      assert forall x :: x + Md in files <==> x + Md == f || x + Md in files[1..];
      if EndsWith(f, Md) then
        assert f[..|f| - 3] + Md == f;
        assert forall x :: x + Md == f ==> x == f[..|f| - 3];
        [f[..|f| - 3]] + rest
      else
        assert forall x :: x + Md != f by {
          forall x ensures x + Md != f { assert (x + Md)[|x + Md| - 3..] == Md; }
        }
        rest
  }

  /** Where the first `.md` of a file name is its extension, the source's
      derivation agrees with removing the extension. */
  lemma {:induction false} NamesAgree(files: seq<string>)
    requires forall k :: 0 <= k < |files| && EndsWith(files[k], Md) ==> FirstOccurrence(files[k], Md) == Some(|files[k]| - 3)
    ensures MdNamesAsWritten(files) == MdNames(files)
  {
    if files != [] {
      var f := files[0];
      assert forall k :: 0 < k < |files| ==> files[1..][k - 1] == files[k];
      NamesAgree(files[1..]);
      if EndsWith(f, Md) {
        assert f[|f|..] == [];
        assert NameAsWritten(f) == f[..|f| - 3] + "" + f[|f|..] == f[..|f| - 3];
        assert MdNamesAsWritten(files) == [f[..|f| - 3]] + MdNamesAsWritten(files[1..]);
        assert MdNames(files) == [f[..|f| - 3]] + MdNames(files[1..]);
      }
    }
  }

  /** A file `a.mdb.md` is discovered as component `ab.md` instead of
      `a.mdb`. */
  lemma InnerMdExample()
    ensures MdNamesAsWritten(["a.mdb.md"]) == ["ab.md"]
    ensures MdNames(["a.mdb.md"]) == ["a.mdb"]
  {
    var f := "a.mdb.md";
    assert f[0] == 'a' && f[1..4] == Md;
    assert OccursAt(f, Md, 1);
    assert !OccursAt(f, Md, 0);
    assert FirstOccurrence(f, Md) == Some(1);
    assert NameAsWritten(f) == f[..1] + "" + f[4..] == "ab.md";
    assert EndsWith(f, Md) && f[..|f| - 3] == "a.mdb";
  }

  /** The sub-directory names, in listing order. */
  function DirNames(entries: seq<Entry>): (names: seq<string>)
    ensures forall x :: x in names <==> Entry(x, true) in entries
  {
    if entries == [] then []
    else (if entries[0].isDir then [entries[0].name] else []) + DirNames(entries[1..])
  }

  /** `discoverComponents`, with `.md` names derived as intended: every
      list is present (empty when its directory is missing). */
  function DiscoverComponents(listing: Listing): (c: Components)
    ensures c.agents.Some? && c.commands.Some? && c.skills.Some?
    ensures forall x :: x in c.agents.value <==> listing.agentFiles.Some? && x + Md in listing.agentFiles.value
    ensures forall x :: x in c.commands.value <==> listing.commandFiles.Some? && x + Md in listing.commandFiles.value
    ensures forall x :: x in c.skills.value <==> listing.skillEntries.Some? && Entry(x, true) in listing.skillEntries.value
  {
    Components(Some(MdNames(listing.agentFiles.GetOr([]))),
               Some(MdNames(listing.commandFiles.GetOr([]))),
               Some(DirNames(listing.skillEntries.GetOr([]))))
  }

  /** `discoverComponents` as the source writes it. */
  function DiscoverComponentsAsWritten(listing: Listing): Components {
    Components(Some(MdNamesAsWritten(listing.agentFiles.GetOr([]))),
               Some(MdNamesAsWritten(listing.commandFiles.GetOr([]))),
               Some(DirNames(listing.skillEntries.GetOr([]))))
  }

  /** The supplied components, unless missing or an empty object; then
      the discovered ones. */
  function SelectComponents(supplied: Option<Components>, discovered: Components): (c: Components)
    ensures supplied.None? || supplied.value == Components(None, None, None) ==> c == discovered
    ensures supplied.Some? && supplied.value != Components(None, None, None) ==> c == supplied.value
  {
    match supplied
    case None => discovered
    case Some(given) => if given == Components(None, None, None) then discovered else given
  }

  // ---------------------------------------------------------------------
  // The file system
  // ---------------------------------------------------------------------

  /** `rm -r`: the path and everything under it removed. */
  function RemoveTree(fs: Fs, dir: string): (r: Fs)
    ensures r <= fs && dir !in r
    ensures forall p :: p in fs && p != dir && !StartsWith(p, dir + "/") ==> p in r
    ensures forall p :: p in fs && StartsWith(p, dir + "/") ==> p !in r
  {
    set p | p in fs && p != dir && !StartsWith(p, dir + "/")
  }

  /** The three component kinds: their source directory and target
      directory share a name. */
  datatype Kind = Agent | Command | Skill

  function KindDir(kind: Kind): string {
    match kind
    case Agent => "agents"
    case Command => "commands"
    case Skill => "skills"
  }

  /** Why an install stops: a target that exists without `force`, or a
      component that cannot be read from the source. */
  datatype Failure = Exists(path: string) | Unreadable(kind: Kind, name: string)

  /** The file system after a loop, the number of components installed,
      and the failure that stopped it, if any. */
  datatype Step = Step(fs: Fs, count: nat, failure: Option<Failure>)

  /** A component file's target path. */
  function FileTarget(dir: string, name: string): string {
    PathJoin(dir, name + Md)
  }

  /** The loop over agents (or commands) into `dir`. Each file is checked
      before it is written; the loop stops at the first file that exists
      without `force` or cannot be read, keeping what it wrote before. */
  function InstallFiles(fs: Fs, dir: string, names: seq<string>, force: bool, kind: Kind, readable: Fs): (s: Step)
    ensures fs <= s.fs
    ensures forall p :: p in s.fs ==> p in fs || exists k :: 0 <= k < |names| && p == FileTarget(dir, names[k])
    ensures s.failure.None? ==> s.count == |names| && forall k :: 0 <= k < |names| ==> FileTarget(dir, names[k]) in s.fs
    ensures s.failure.None? && !force ==> forall k :: 0 <= k < |names| ==> FileTarget(dir, names[k]) !in fs
    ensures s.failure.None? ==> forall k :: 0 <= k < |names| ==> PathJoin(KindDir(kind), names[k] + Md) in readable
    ensures s.failure.Some? ==> exists k :: 0 <= k < |names| && FailsAt(s, dir, names, k, force, kind, readable)
    decreases |names|
  {
    if names == [] then Step(fs, 0, None)
    else
      var target := FileTarget(dir, names[0]);
      if !force && target in fs then
        var s := Step(fs, 0, Some(Exists(target)));
        assert FailsAt(s, dir, names, 0, force, kind, readable);
        s
      else if PathJoin(KindDir(kind), names[0] + Md) !in readable then
        var s := Step(fs, 0, Some(Unreadable(kind, names[0])));
        assert FailsAt(s, dir, names, 0, force, kind, readable);
        s
      else
        var rest := InstallFiles(fs + {target}, dir, names[1..], force, kind, readable);
        assert forall k :: 0 < k < |names| ==> names[k] == names[1..][k - 1];
        var s := Step(rest.fs, rest.count + 1, rest.failure);
        FailsLater(rest, s, dir, names, force, kind, readable);
        s
  }

  /** A failure in the rest of the list is a failure of the whole list,
      one position later. */
  lemma FailsLater(rest: Step, s: Step, dir: string, names: seq<string>, force: bool, kind: Kind, readable: Fs)
    requires names != [] && FileTarget(dir, names[0]) in rest.fs
    requires s.fs == rest.fs && s.failure == rest.failure
    requires rest.failure.Some? ==> exists k :: 0 <= k < |names[1..]| && FailsAt(rest, dir, names[1..], k, force, kind, readable)
    ensures s.failure.Some? ==> exists k :: 0 <= k < |names| && FailsAt(s, dir, names, k, force, kind, readable)
  {
    if s.failure.Some? {
      var k :| 0 <= k < |names[1..]| && FailsAt(rest, dir, names[1..], k, force, kind, readable);
      assert forall j :: 0 < j < |names| ==> names[j] == names[1..][j - 1];
      assert FailsAt(s, dir, names, k + 1, force, kind, readable);
    }
  }

  /** The loop stopped at file `k`: everything before it was written, and
      the failure names file `k`, which existed without `force` or could
      not be read. */
  predicate FailsAt(s: Step, dir: string, names: seq<string>, k: nat, force: bool, kind: Kind, readable: Fs)
    requires k < |names|
  {
    && (forall j :: 0 <= j < k ==> FileTarget(dir, names[j]) in s.fs)
    && ((s.failure == Some(Exists(FileTarget(dir, names[k]))) && !force && FileTarget(dir, names[k]) in s.fs)
        || (s.failure == Some(Unreadable(kind, names[k])) && PathJoin(KindDir(kind), names[k] + Md) !in readable))
  }

  // ---------------------------------------------------------------------
  // Paths under a directory
  // ---------------------------------------------------------------------

  /** `p` lies strictly inside directory `dir`. */
  predicate Under(p: string, dir: string) {
    StartsWith(p, dir + "/")
  }

  /** A child lies inside its parent. */
  lemma ChildUnder(dir: string, name: string)
    ensures Under(PathJoin(dir, name), dir)
  {
    assert PathJoin(dir, name)[..|dir + "/"|] == dir + "/";
  }

  /** What lies inside a child lies inside the parent. */
  lemma UnderParent(p: string, dir: string, name: string)
    requires Under(p, PathJoin(dir, name))
    ensures Under(p, dir)
  {
    assert p[..|dir + "/"|] == (PathJoin(dir, name) + "/")[..|dir + "/"|];
  }

  /** One child lies inside another only if its name holds a `/`. */
  lemma SiblingUnder(dir: string, x: string, y: string)
    requires Under(PathJoin(dir, x), PathJoin(dir, y))
    ensures '/' in x
  {
    var p := PathJoin(dir, x);
    var q := PathJoin(dir, y) + "/";
    assert p[|q| - 1] == q[|q| - 1] == '/';
    assert x[|y|] == p[|dir| + 1 + |y|];
  }

  /** A path inside `<c>/<x>` is not inside `<c>/<y>` when the two
      directory names start differently. */
  lemma OtherBranch(p: string, c: string, x: string, y: string)
    requires x != [] && y != [] && x[0] != y[0]
    requires StartsWith(p, PathJoin(c, x))
    ensures !Under(p, PathJoin(c, y))
    ensures p != PathJoin(c, y)
  {
    assert p[|c| + 1] == PathJoin(c, x)[|c| + 1] == x[0];
    assert PathJoin(c, y)[|c| + 1] == y[0];
  }

  /** A path built under `<c>/<x>` starts with `<c>/<x>`. */
  lemma JoinStarts(c: string, x: string, rest: string)
    ensures StartsWith(PathJoin(PathJoin(c, x), rest), PathJoin(c, x))
  {
    assert PathJoin(PathJoin(c, x), rest)[..|PathJoin(c, x)|] == PathJoin(c, x);
  }

  // ---------------------------------------------------------------------
  // Skills
  // ---------------------------------------------------------------------

  /** The skills loop into `base`. A skill directory that exists stops the
      loop without `force` and is removed with everything in it under
      `force`; the directory is then created before the copy, so a skill
      that cannot be read leaves it behind, empty. */
  function InstallSkills(fs: Fs, base: string, names: seq<string>, force: bool, readable: Fs): (s: Step)
    ensures SkillsPost(fs, base, names, force, readable, s)
    ensures ForceCleared(fs, base, names, force, s)
    decreases |names|
  {
    if names == [] then Step(fs, 0, None)
    else
      var target := PathJoin(base, names[0]);
      if !force && target in fs then
        var s := Step(fs, 0, Some(Exists(target)));
        SkillExisting(fs, base, names, readable, s);
        s
      else
        var cleared := if force && target in fs then RemoveTree(fs, target) else fs;
        var made := cleared + {target};
        ClearedUnder(fs, cleared, base, names[0], force);
        if PathJoin(KindDir(Skill), names[0]) !in readable then
          var s := Step(made, 0, Some(Unreadable(Skill, names[0])));
          SkillUnreadable(fs, cleared, base, names, force, readable, s);
          s
        else
          var rest := InstallSkills(made, base, names[1..], force, readable);
          var s := Step(rest.fs, rest.count + 1, rest.failure);
          SkillsCons(fs, cleared, made, base, names, force, readable, rest, s);
          ForceClearedCons(fs, cleared, made, base, names, force, readable, rest, s);
          s
  }

  /** What the skills loop promises: paths outside `base` stay; without
      `force` nothing is removed; whatever is removed lies in one of the
      skill directories, and whatever is added is one of them; on success
      every skill was readable, none existed beforehand unless `force`, and
      (for names without `/`) every skill directory exists; on failure the
      loop stopped at some skill whose directory is left in place. */
  ghost predicate SkillsPost(fs: Fs, base: string, names: seq<string>, force: bool, readable: Fs, s: Step) {
    && (forall p :: p in fs && !Under(p, base) ==> p in s.fs)
    && (!force ==> fs <= s.fs)
    && (forall p :: p in fs && p !in s.fs ==> Removed(p, base, names))
    && (forall p :: p in s.fs ==> p in fs || exists k :: 0 <= k < |names| && p == PathJoin(base, names[k]))
    && (s.failure.None? ==> s.count == |names| && forall k :: 0 <= k < |names| ==> PathJoin(KindDir(Skill), names[k]) in readable)
    && (s.failure.None? && !force ==> forall k :: 0 <= k < |names| ==> PathJoin(base, names[k]) !in fs)
    && (s.failure.None? && (forall k :: 0 <= k < |names| ==> '/' !in names[k]) ==>
          forall k :: 0 <= k < |names| ==> PathJoin(base, names[k]) in s.fs)
    && (s.failure.Some? ==> exists k :: 0 <= k < |names| && SkillFailsAt(s, base, names, k, force, readable))
  }

  /** Clearing the first skill's directory under `force` removes only that
      directory and what lies inside it, all of it inside `base`. */
  lemma ClearedUnder(fs: Fs, cleared: Fs, base: string, name: string, force: bool)
    requires cleared == if force && PathJoin(base, name) in fs then RemoveTree(fs, PathJoin(base, name)) else fs
    ensures cleared <= fs
    ensures forall p :: p in fs && p !in cleared ==> p == PathJoin(base, name) || Under(p, PathJoin(base, name))
    ensures forall p :: p in fs && p !in cleared ==> Under(p, base)
  {
    ChildUnder(base, name);
    forall p | p in fs && p !in cleared ensures Under(p, base) {
      if p != PathJoin(base, name) { UnderParent(p, base, name); }
    }
  }

  /** The first skill's directory exists without `force`: the loop stops
      there, changing nothing. */
  lemma SkillExisting(fs: Fs, base: string, names: seq<string>, readable: Fs, s: Step)
    requires names != [] && PathJoin(base, names[0]) in fs
    requires s == Step(fs, 0, Some(Exists(PathJoin(base, names[0]))))
    ensures SkillsPost(fs, base, names, false, readable, s)
  {
    assert SkillFailsAt(s, base, names, 0, false, readable);
  }

  /** The first skill cannot be read: its directory was created, and the
      loop stops there. */
  lemma SkillUnreadable(fs: Fs, cleared: Fs, base: string, names: seq<string>, force: bool, readable: Fs, s: Step)
    requires names != [] && PathJoin(KindDir(Skill), names[0]) !in readable
    requires !force ==> PathJoin(base, names[0]) !in fs
    requires cleared <= fs && (!force ==> cleared == fs)
    requires forall p :: p in fs && p !in cleared ==> p == PathJoin(base, names[0]) || Under(p, PathJoin(base, names[0]))
    requires forall p :: p in fs && p !in cleared ==> Under(p, base)
    requires s == Step(cleared + {PathJoin(base, names[0])}, 0, Some(Unreadable(Skill, names[0])))
    ensures SkillsPost(fs, base, names, force, readable, s)
  {
    assert SkillFailsAt(s, base, names, 0, force, readable);
    forall p | p in fs && p !in s.fs ensures Removed(p, base, names) {
      assert p == PathJoin(base, names[0]) || Under(p, PathJoin(base, names[0]));
    }
  }

  /** The first skill was installed and the loop went on with the rest. */
  lemma SkillsCons(fs: Fs, cleared: Fs, made: Fs, base: string, names: seq<string>, force: bool, readable: Fs,
                   rest: Step, s: Step)
    requires names != [] && PathJoin(KindDir(Skill), names[0]) in readable
    requires !force ==> PathJoin(base, names[0]) !in fs
    requires cleared <= fs && (!force ==> cleared == fs)
    requires forall p :: p in fs && p !in cleared ==> p == PathJoin(base, names[0]) || Under(p, PathJoin(base, names[0]))
    requires forall p :: p in fs && p !in cleared ==> Under(p, base)
    requires made == cleared + {PathJoin(base, names[0])}
    requires SkillsPost(made, base, names[1..], force, readable, rest)
    requires s == Step(rest.fs, rest.count + 1, rest.failure)
    ensures SkillsPost(fs, base, names, force, readable, s)
  {
    assert forall k :: 0 < k < |names| ==> names[k] == names[1..][k - 1];
    assert forall p :: p in fs && !Under(p, base) ==> p in s.fs by {
      ChildUnder(base, names[0]);
    }
    assert forall p :: p in fs && p !in s.fs ==> Removed(p, base, names) by {
      RemovedLater(fs, cleared, made, rest.fs, base, names);
    }
    assert forall p :: p in s.fs ==> p in fs || exists k :: 0 <= k < |names| && p == PathJoin(base, names[k]) by {
      forall p | p in s.fs ensures p in fs || exists k :: 0 <= k < |names| && p == PathJoin(base, names[k]) {
        if p !in made {
          var k :| 0 <= k < |names[1..]| && p == PathJoin(base, names[1..][k]);
          assert p == PathJoin(base, names[k + 1]);
        }
      }
    }
    assert s.failure.None? ==> s.count == |names| && forall k :: 0 <= k < |names| ==> PathJoin(KindDir(Skill), names[k]) in readable;
    assert s.failure.None? && !force ==> forall k :: 0 <= k < |names| ==> PathJoin(base, names[k]) !in fs;
    SkillsLater(rest, s, base, names, force, readable, made);
  }

  /** Under `force`, a successful loop leaves nothing of what lay inside a
      skill directory that existed beforehand (for names without `/`):
      the old tree is removed before the skill is copied again. */
  ghost predicate ForceCleared(fs: Fs, base: string, names: seq<string>, force: bool, s: Step) {
    s.failure.None? && force && (forall k :: 0 <= k < |names| ==> '/' !in names[k]) ==>
      forall k, p :: 0 <= k < |names| && PathJoin(base, names[k]) in fs && p in fs && Under(p, PathJoin(base, names[k])) ==>
        p !in s.fs
  }

  /** The first skill's old tree is cleared here, and what lay inside a
      later skill's directory is either cleared here too or by the rest of
      the loop; no skill directory created later lies inside another. */
  lemma ForceClearedCons(fs: Fs, cleared: Fs, made: Fs, base: string, names: seq<string>, force: bool, readable: Fs,
                         rest: Step, s: Step)
    requires names != []
    requires cleared == if force && PathJoin(base, names[0]) in fs then RemoveTree(fs, PathJoin(base, names[0])) else fs
    requires made == cleared + {PathJoin(base, names[0])}
    requires forall p :: p in rest.fs ==> p in made || exists k :: 0 <= k < |names[1..]| && p == PathJoin(base, names[1..][k])
    requires ForceCleared(made, base, names[1..], force, rest)
    requires s == Step(rest.fs, rest.count + 1, rest.failure)
    ensures ForceCleared(fs, base, names, force, s)
  {
    if s.failure.None? && force && (forall k :: 0 <= k < |names| ==> '/' !in names[k]) {
      var t0 := PathJoin(base, names[0]);
      forall k, p | 0 <= k < |names| && PathJoin(base, names[k]) in fs && p in fs && Under(p, PathJoin(base, names[k]))
        ensures p !in s.fs
      {
        var tk := PathJoin(base, names[k]);
        forall j | 0 <= j < |names[1..]| ensures p != PathJoin(base, names[1..][j]) {
          if p == PathJoin(base, names[1..][j]) { SiblingUnder(base, names[1..][j], names[k]); }
        }
        if p == t0 { SiblingUnder(base, names[0], names[k]); }
        if k > 0 {
          if tk !in cleared && tk != t0 { SiblingUnder(base, names[k], names[0]); }
          assert tk in made && names[1..][k - 1] == names[k];
        }
      }
    }
  }

  /** `p` is one of the skill directories or lies inside one. */
  predicate Removed(p: string, base: string, names: seq<string>) {
    exists k :: 0 <= k < |names| && (p == PathJoin(base, names[k]) || Under(p, PathJoin(base, names[k])))
  }

  /** What the first skill's removal and the rest of the loop take away
      lies in one of the skill directories. */
  lemma RemovedLater(fs: Fs, cleared: Fs, made: Fs, after: Fs, base: string, names: seq<string>)
    requires names != []
    requires forall p :: p in fs && p !in cleared ==> p == PathJoin(base, names[0]) || Under(p, PathJoin(base, names[0]))
    requires made == cleared + {PathJoin(base, names[0])}
    requires forall p :: p in made && p !in after ==> Removed(p, base, names[1..])
    ensures forall p :: p in fs && p !in after ==> Removed(p, base, names)
  {
    forall p | p in fs && p !in after ensures Removed(p, base, names) {
      if p in made {
        var k :| 0 <= k < |names[1..]| && (p == PathJoin(base, names[1..][k]) || Under(p, PathJoin(base, names[1..][k])));
        assert names[1..][k] == names[k + 1];
      } else {
        assert p !in cleared;
      }
    }
  }

  /** The skills loop stopped at skill `k`, whose directory is left in
      place: it existed without `force`, or it was created and the skill
      could not be read. */
  predicate SkillFailsAt(s: Step, base: string, names: seq<string>, k: nat, force: bool, readable: Fs)
    requires k < |names|
  {
    && PathJoin(base, names[k]) in s.fs
    && ((s.failure == Some(Exists(PathJoin(base, names[k]))) && !force)
        || (s.failure == Some(Unreadable(Skill, names[k])) && PathJoin(KindDir(Skill), names[k]) !in readable))
  }

  /** The step from the rest of the skills list to the whole of it. */
  lemma SkillsLater(rest: Step, s: Step, base: string, names: seq<string>, force: bool, readable: Fs, made: Fs)
    requires names != [] && PathJoin(base, names[0]) in made
    requires s.fs == rest.fs && s.failure == rest.failure
    requires forall k :: 0 < k < |names| ==> names[k] == names[1..][k - 1]
    requires forall p :: p in made && p !in rest.fs ==> Removed(p, base, names[1..])
    requires rest.failure.None? && (forall k :: 0 <= k < |names[1..]| ==> '/' !in names[1..][k]) ==>
      forall k :: 0 <= k < |names[1..]| ==> PathJoin(base, names[1..][k]) in rest.fs
    requires rest.failure.Some? ==> exists k :: 0 <= k < |names[1..]| && SkillFailsAt(rest, base, names[1..], k, force, readable)
    ensures s.failure.None? && (forall k :: 0 <= k < |names| ==> '/' !in names[k]) ==>
      forall k :: 0 <= k < |names| ==> PathJoin(base, names[k]) in s.fs
    ensures s.failure.Some? ==> exists k :: 0 <= k < |names| && SkillFailsAt(s, base, names, k, force, readable)
  {
    if s.failure.Some? {
      var k :| 0 <= k < |names[1..]| && SkillFailsAt(rest, base, names[1..], k, force, readable);
      assert SkillFailsAt(s, base, names, k + 1, force, readable);
    } else if forall k :: 0 <= k < |names| ==> '/' !in names[k] {
      var t := PathJoin(base, names[0]);
      if t !in rest.fs {
        var k :| 0 <= k < |names[1..]| && (t == PathJoin(base, names[1..][k]) || Under(t, PathJoin(base, names[1..][k])));
        if Under(t, PathJoin(base, names[1..][k])) {
          SiblingUnder(base, names[0], names[1..][k]);
        }
      }
    }
  }

  // ---------------------------------------------------------------------
  // Install and uninstall
  // ---------------------------------------------------------------------

  datatype Counts = Counts(agents: nat, commands: nat, skills: nat)

  /** What an install yields: the counts or the failure that stopped it,
      and the file system as it was left (earlier writes included). */
  datatype Outcome = Outcome(result: Result<Counts, Failure>, fs: Fs)

  /** `<claudeDir>/<kind>`. */
  function KindRoot(claudeDir: string, kind: Kind): string {
    PathJoin(claudeDir, KindDir(kind))
  }

  /** `<claudeDir>/<kind>/<plugin>`, where the plugin's agents (or
      commands) go. */
  function PluginDir(claudeDir: string, kind: Kind, pluginName: string): string {
    PathJoin(KindRoot(claudeDir, kind), pluginName)
  }

  /** The agents (or commands) step: nothing when the list is empty, else
      the plugin's directory is created and the files installed into it. */
  function InstallKind(fs: Fs, claudeDir: string, pluginName: string, names: seq<string>, force: bool, kind: Kind, readable: Fs): (s: Step)
    ensures fs <= s.fs
    ensures s.failure.None? ==> s.count == |names|
    ensures s.failure.None? && |names| > 0 ==> PluginDir(claudeDir, kind, pluginName) in s.fs
    ensures s.failure.None? ==> forall k :: 0 <= k < |names| ==> FileTarget(PluginDir(claudeDir, kind, pluginName), names[k]) in s.fs
    ensures s.failure.None? && !force ==> forall k :: 0 <= k < |names| ==> FileTarget(PluginDir(claudeDir, kind, pluginName), names[k]) !in fs
    ensures forall p :: p in s.fs ==> p in fs || StartsWith(p, KindRoot(claudeDir, kind))
  {
    if |names| == 0 then Step(fs, 0, None)
    else
      var dir := PluginDir(claudeDir, kind, pluginName);
      var s := InstallFiles(fs + {dir}, dir, names, force, kind, readable);
      JoinStarts(claudeDir, KindDir(kind), pluginName);
      assert forall k :: 0 <= k < |names| ==> StartsWith(FileTarget(dir, names[k]), KindRoot(claudeDir, kind)) by {
        forall k | 0 <= k < |names| ensures StartsWith(FileTarget(dir, names[k]), KindRoot(claudeDir, kind)) {
          assert FileTarget(dir, names[k])[..|KindRoot(claudeDir, kind)|] == dir[..|KindRoot(claudeDir, kind)|];
        }
      }
      s
  }

  /** `installPlugin`: the base directories, then agents, commands and
      skills in that order; the first failure stops the install. On
      success the counts are the list lengths, and without `force` none
      of the targets existed before. */
  function InstallPlugin(fs: Fs, plugin: Plugin, claudeDir: string, force: bool, discovered: Components, readable: Fs): (o: Outcome)
    ensures var c := SelectComponents(plugin.components, discovered);
      && (o.result.Ok? ==> o.result.value == Counts(|Listed(c.agents)|, |Listed(c.commands)|, |Listed(c.skills)|))
      && (!force ==> fs <= o.fs)
      && (o.result.Ok? && !force ==>
            && (forall k :: 0 <= k < |Listed(c.agents)| ==> FileTarget(PluginDir(claudeDir, Agent, plugin.name), Listed(c.agents)[k]) !in fs)
            && (forall k :: 0 <= k < |Listed(c.commands)| ==> FileTarget(PluginDir(claudeDir, Command, plugin.name), Listed(c.commands)[k]) !in fs)
            && (forall k :: 0 <= k < |Listed(c.skills)| ==> PathJoin(KindRoot(claudeDir, Skill), Listed(c.skills)[k]) !in fs))
  {
    var c := SelectComponents(plugin.components, discovered);
    var fs0 := fs + {KindRoot(claudeDir, Agent), KindRoot(claudeDir, Command), KindRoot(claudeDir, Skill)};
    var a := InstallKind(fs0, claudeDir, plugin.name, Listed(c.agents), force, Agent, readable);
    if a.failure.Some? then Outcome(Err(a.failure.value), a.fs)
    else
      var m := InstallKind(a.fs, claudeDir, plugin.name, Listed(c.commands), force, Command, readable);
      if m.failure.Some? then Outcome(Err(m.failure.value), m.fs)
      else
        var skills := Listed(c.skills);
        var k := if |skills| > 0 then InstallSkills(m.fs, KindRoot(claudeDir, Skill), skills, force, readable) else Step(m.fs, 0, None);
        if k.failure.Some? then Outcome(Err(k.failure.value), k.fs)
        else Outcome(Ok(Counts(a.count, m.count, k.count)), k.fs)
  }

  /** The listed skills whose directory exists under `base`. */
  ghost function Existing(fs: Fs, base: string, names: seq<string>): set<string> {
    set n | n in names && PathJoin(base, n) in fs
  }

  /** The skills removal loop: each skill directory that exists is removed
      with everything in it and counted, so (for names without `/`) the
      count is the number of distinct listed skills whose directory
      existed. */
  function RemoveSkills(fs: Fs, base: string, names: seq<string>): (r: (Fs, nat))
    ensures r.0 <= fs
    ensures r.1 <= |names|
    ensures (forall k :: 0 <= k < |names| ==> '/' !in names[k]) ==> r.1 == |Existing(fs, base, names)|
    ensures forall k :: 0 <= k < |names| ==> PathJoin(base, names[k]) !in r.0
    ensures SkillTreesGone(fs, base, names, r.0)
    ensures forall p :: p in fs && !Under(p, base) ==> p in r.0
    decreases |names|
  {
    if names == [] then (fs, 0)
    else
      var target := PathJoin(base, names[0]);
      ChildUnder(base, names[0]);
      var cleared := if target in fs then RemoveTree(fs, target) else fs;
      assert forall p :: p in fs && p !in cleared ==> Under(p, base) by {
        forall p | p in fs && p !in cleared ensures Under(p, base) {
          if p != target { UnderParent(p, base, names[0]); }
        }
      }
      var rest := RemoveSkills(cleared, base, names[1..]);
      assert forall k :: 0 < k < |names| ==> names[k] == names[1..][k - 1];
      ExistingCons(fs, cleared, base, names);
      SkillTreesGoneCons(fs, cleared, rest.0, base, names);
      (rest.0, rest.1 + (if target in fs then 1 else 0))
  }

  /** The loop removes only directories that exist: a path lying below
      an absent skill directory is left alone and nothing is counted. */
  lemma RemoveSkillsSkipsMissing()
    ensures RemoveSkills({"/s/a/x"}, "/s", ["a"]) == ({"/s/a/x"}, 0)
  {
    assert PathJoin("/s", "a") == "/s/a" != "/s/a/x";
  }

  /** Nothing that lay inside a listed skill directory that existed in
      `fs` is left in `after`. */
  ghost predicate SkillTreesGone(fs: Fs, base: string, names: seq<string>, after: Fs) {
    forall k, p :: 0 <= k < |names| && PathJoin(base, names[k]) in fs && p in fs && Under(p, PathJoin(base, names[k])) ==>
      p !in after
  }

  /** Inside a directory that lies inside another is inside that one. */
  lemma UnderTrans(p: string, q: string, d: string)
    requires Under(p, q) && (q == d || Under(q, d))
    ensures Under(p, d)
  {
    if q != d {
      assert p[..|d + "/"|] == (q + "/")[..|d + "/"|] == q[..|d + "/"|];
    }
  }

  /** The first skill's tree goes when its directory is removed; a later
      skill's tree goes in the rest of the loop, or went with the first
      one if its directory lay inside the first. */
  lemma SkillTreesGoneCons(fs: Fs, cleared: Fs, after: Fs, base: string, names: seq<string>)
    requires names != []
    requires cleared == if PathJoin(base, names[0]) in fs then RemoveTree(fs, PathJoin(base, names[0])) else fs
    requires after <= cleared
    requires SkillTreesGone(cleared, base, names[1..], after)
    ensures SkillTreesGone(fs, base, names, after)
  {
    var t0 := PathJoin(base, names[0]);
    forall k, p | 0 <= k < |names| && PathJoin(base, names[k]) in fs && p in fs && Under(p, PathJoin(base, names[k]))
      ensures p !in after
    {
      var tk := PathJoin(base, names[k]);
      if k == 0 {
        assert p !in cleared;
      } else if tk !in cleared {
        UnderTrans(p, tk, t0);
      } else if p in cleared {
        assert names[1..][k - 1] == names[k];
      }
    }
  }

  /** Removals that leave every listed skill directory in place carry the
      loop's tree removal back to the original file system. */
  lemma SkillTreesGoneFrame(fs: Fs, fs2: Fs, after: Fs, base: string, names: seq<string>)
    requires after <= fs2 <= fs
    requires forall k :: 0 <= k < |names| && PathJoin(base, names[k]) in fs ==> PathJoin(base, names[k]) in fs2
    requires SkillTreesGone(fs2, base, names, after)
    ensures SkillTreesGone(fs, base, names, after)
  {
    forall k, p | 0 <= k < |names| && PathJoin(base, names[k]) in fs && p in fs && Under(p, PathJoin(base, names[k]))
      ensures p !in after
    {
      assert PathJoin(base, names[k]) in fs2;
    }
  }

  /** `<base>/<x>` and `<base>/<y>` are the same path only for the same
      name. */
  lemma JoinInjective(base: string, x: string, y: string)
    requires PathJoin(base, x) == PathJoin(base, y)
    ensures x == y
  {
    assert x == PathJoin(base, x)[|base| + 1..];
  }

  /** Removing the first skill's directory takes exactly that skill out of
      the existing ones, and counts it once if it existed. */
  lemma ExistingCons(fs: Fs, cleared: Fs, base: string, names: seq<string>)
    requires names != []
    requires cleared == if PathJoin(base, names[0]) in fs then RemoveTree(fs, PathJoin(base, names[0])) else fs
    ensures (forall k :: 0 <= k < |names| ==> '/' !in names[k]) ==>
      |Existing(fs, base, names)| == |Existing(cleared, base, names[1..])| + (if PathJoin(base, names[0]) in fs then 1 else 0)
  {
    if forall k :: 0 <= k < |names| ==> '/' !in names[k] {
      var x := names[0];
      var target := PathJoin(base, x);
      var later := Existing(cleared, base, names[1..]);
      forall n | n in names[1..] && n != x
        ensures PathJoin(base, n) in cleared <==> PathJoin(base, n) in fs
      {
        if PathJoin(base, n) == target { JoinInjective(base, n, x); }
        if Under(PathJoin(base, n), target) { SiblingUnder(base, n, x); }
      }
      if target in fs {
        assert x !in later;
        assert Existing(fs, base, names) == later + {x};
      } else {
        assert Existing(fs, base, names) == later;
      }
    }
  }

  /** `uninstallPlugin`: the plugin's agents and commands directories are
      removed if they exist, and reported as the whole declared list;
      each existing skill directory is removed and counted. */
  function UninstallPlugin(fs: Fs, plugin: Plugin, claudeDir: string, discovered: Components): (r: (Counts, Fs))
    ensures var c := SelectComponents(plugin.components, discovered);
      && r.1 <= fs
      && r.0.agents == (if |Listed(c.agents)| > 0 && PluginDir(claudeDir, Agent, plugin.name) in fs then |Listed(c.agents)| else 0)
      && r.0.commands == (if |Listed(c.commands)| > 0 && PluginDir(claudeDir, Command, plugin.name) in fs then |Listed(c.commands)| else 0)
      && r.0.skills <= |Listed(c.skills)|
      && ((forall k :: 0 <= k < |Listed(c.skills)| ==> '/' !in Listed(c.skills)[k]) ==>
            r.0.skills == |Existing(fs, KindRoot(claudeDir, Skill), Listed(c.skills))|)
      && (|Listed(c.agents)| > 0 ==> PluginDir(claudeDir, Agent, plugin.name) !in r.1)
      && (|Listed(c.commands)| > 0 ==> PluginDir(claudeDir, Command, plugin.name) !in r.1)
      && (forall k :: 0 <= k < |Listed(c.skills)| ==> PathJoin(KindRoot(claudeDir, Skill), Listed(c.skills)[k]) !in r.1)
      && (|Listed(c.agents)| > 0 && PluginDir(claudeDir, Agent, plugin.name) in fs ==>
            forall p :: p in fs && Under(p, PluginDir(claudeDir, Agent, plugin.name)) ==> p !in r.1)
      && (|Listed(c.commands)| > 0 && PluginDir(claudeDir, Command, plugin.name) in fs ==>
            forall p :: p in fs && Under(p, PluginDir(claudeDir, Command, plugin.name)) ==> p !in r.1)
      && SkillTreesGone(fs, KindRoot(claudeDir, Skill), Listed(c.skills), r.1)
  {
    var c := SelectComponents(plugin.components, discovered);
    var agents := Listed(c.agents);
    var commands := Listed(c.commands);
    var aDir := PluginDir(claudeDir, Agent, plugin.name);
    var cDir := PluginDir(claudeDir, Command, plugin.name);
    var fs1 := if |agents| > 0 && aDir in fs then RemoveTree(fs, aDir) else fs;
    JoinStarts(claudeDir, "commands", plugin.name);
    OtherBranch(cDir, claudeDir, "commands", "agents");
    JoinStarts(claudeDir, "agents", plugin.name);
    assert cDir != aDir && !Under(cDir, aDir) by {
      if Under(cDir, aDir) { UnderParent(cDir, KindRoot(claudeDir, Agent), plugin.name); }
    }
    var fs2 := if |commands| > 0 && cDir in fs1 then RemoveTree(fs1, cDir) else fs1;
    var skillsRoot := KindRoot(claudeDir, Skill);
    assert aDir !in fs2 || |agents| == 0;
    OtherBranch(aDir, claudeDir, "agents", "skills");
    OtherBranch(cDir, claudeDir, "commands", "skills");
    var (fs3, skills) := RemoveSkills(fs2, skillsRoot, Listed(c.skills));
    SkillsUntouched(fs, fs2, claudeDir, plugin.name, Listed(c.skills));
    forall k | 0 <= k < |Listed(c.skills)| && PathJoin(skillsRoot, Listed(c.skills)[k]) in fs
      ensures PathJoin(skillsRoot, Listed(c.skills)[k]) in fs2
    {
      SkillOutsidePluginDirs(claudeDir, plugin.name, Listed(c.skills)[k], Agent);
      SkillOutsidePluginDirs(claudeDir, plugin.name, Listed(c.skills)[k], Command);
    }
    SkillTreesGoneFrame(fs, fs2, fs3, skillsRoot, Listed(c.skills));
    (Counts(if |agents| > 0 && aDir in fs then |agents| else 0,
            if |commands| > 0 && cDir in fs1 then |commands| else 0,
            skills), fs3)
  }

  /** A skill directory is neither the plugin's agents or commands
      directory nor inside either. */
  lemma SkillOutsidePluginDirs(claudeDir: string, pluginName: string, n: string, kind: Kind)
    requires kind != Skill
    ensures var p := PathJoin(KindRoot(claudeDir, Skill), n);
      p != PluginDir(claudeDir, kind, pluginName) && !Under(p, PluginDir(claudeDir, kind, pluginName))
  {
    var p := PathJoin(KindRoot(claudeDir, Skill), n);
    var root := KindRoot(claudeDir, kind);
    JoinStarts(claudeDir, "skills", n);
    OtherBranch(p, claudeDir, "skills", KindDir(kind));
    ChildUnder(root, pluginName);
    if Under(p, PluginDir(claudeDir, kind, pluginName)) { UnderParent(p, root, pluginName); }
  }

  /** Removing the plugin's agents and commands directories leaves every
      skill directory as it was. */
  lemma SkillsUntouched(fs: Fs, fs2: Fs, claudeDir: string, pluginName: string, names: seq<string>)
    requires fs2 <= fs
    requires forall p :: p in fs && p !in fs2 ==>
      p == PluginDir(claudeDir, Agent, pluginName) || Under(p, PluginDir(claudeDir, Agent, pluginName))
      || p == PluginDir(claudeDir, Command, pluginName) || Under(p, PluginDir(claudeDir, Command, pluginName))
    ensures Existing(fs2, KindRoot(claudeDir, Skill), names) == Existing(fs, KindRoot(claudeDir, Skill), names)
  {
    forall n | n in names ensures PathJoin(KindRoot(claudeDir, Skill), n) in fs2 <==> PathJoin(KindRoot(claudeDir, Skill), n) in fs {
      SkillOutsidePluginDirs(claudeDir, pluginName, n, Agent);
      SkillOutsidePluginDirs(claudeDir, pluginName, n, Command);
    }
  }

  // ---------------------------------------------------------------------
  // Install, uninstall and detection together
  // ---------------------------------------------------------------------

  /** A platform that keeps agents, commands and skills where the installer
      puts them (Claude Code and OpenCode do). */
  predicate InstallerLayout(platform: Platform) {
    platform.agents == Some(KindDir(Agent)) && platform.commands == Some(KindDir(Command))
    && platform.skills == KindDir(Skill)
  }

  /** A path in the agents or commands tree is not in the skills tree. */
  lemma OutsideSkills(p: string, claudeDir: string)
    requires StartsWith(p, KindRoot(claudeDir, Agent)) || StartsWith(p, KindRoot(claudeDir, Command))
    ensures !Under(p, KindRoot(claudeDir, Skill))
  {
    if StartsWith(p, KindRoot(claudeDir, Agent)) {
      OtherBranch(p, claudeDir, "agents", "skills");
    } else {
      OtherBranch(p, claudeDir, "commands", "skills");
    }
  }

  /** A component file's target lies in its kind's tree. */
  lemma TargetInTree(claudeDir: string, kind: Kind, pluginName: string, x: string)
    ensures StartsWith(PluginDir(claudeDir, kind, pluginName), KindRoot(claudeDir, kind))
    ensures StartsWith(FileTarget(PluginDir(claudeDir, kind, pluginName), x), KindRoot(claudeDir, kind))
  {
    var root := KindRoot(claudeDir, kind);
    var dir := PluginDir(claudeDir, kind, pluginName);
    JoinStarts(claudeDir, KindDir(kind), pluginName);
    assert FileTarget(dir, x)[..|root|] == dir[..|root|];
  }

  /** What a successful install leaves in place: the plugin's agents and
      commands directories and files, and every skill directory. */
  lemma InstallContents(fs: Fs, plugin: Plugin, claudeDir: string, force: bool, discovered: Components, readable: Fs)
    requires forall k :: 0 <= k < |Listed(SelectComponents(plugin.components, discovered).skills)| ==>
      '/' !in Listed(SelectComponents(plugin.components, discovered).skills)[k]
    requires InstallPlugin(fs, plugin, claudeDir, force, discovered, readable).result.Ok?
    ensures var c := SelectComponents(plugin.components, discovered);
      var after := InstallPlugin(fs, plugin, claudeDir, force, discovered, readable).fs;
      && (|Listed(c.agents)| > 0 ==> PluginDir(claudeDir, Agent, plugin.name) in after)
      && (forall k :: 0 <= k < |Listed(c.agents)| ==> FileTarget(PluginDir(claudeDir, Agent, plugin.name), Listed(c.agents)[k]) in after)
      && (|Listed(c.commands)| > 0 ==> PluginDir(claudeDir, Command, plugin.name) in after)
      && (forall k :: 0 <= k < |Listed(c.commands)| ==> FileTarget(PluginDir(claudeDir, Command, plugin.name), Listed(c.commands)[k]) in after)
      && (forall k :: 0 <= k < |Listed(c.skills)| ==> PathJoin(KindRoot(claudeDir, Skill), Listed(c.skills)[k]) in after)
  {
    var c := SelectComponents(plugin.components, discovered);
    var agents, commands, skills := Listed(c.agents), Listed(c.commands), Listed(c.skills);
    var fs0 := fs + {KindRoot(claudeDir, Agent), KindRoot(claudeDir, Command), KindRoot(claudeDir, Skill)};
    var a := InstallKind(fs0, claudeDir, plugin.name, agents, force, Agent, readable);
    var m := InstallKind(a.fs, claudeDir, plugin.name, commands, force, Command, readable);
    var skillsRoot := KindRoot(claudeDir, Skill);
    var k := if |skills| > 0 then InstallSkills(m.fs, skillsRoot, skills, force, readable) else Step(m.fs, 0, None);
    assert InstallPlugin(fs, plugin, claudeDir, force, discovered, readable).fs == k.fs;
    assert forall p :: p in m.fs && !Under(p, skillsRoot) ==> p in k.fs;
    var aDir := PluginDir(claudeDir, Agent, plugin.name);
    var cDir := PluginDir(claudeDir, Command, plugin.name);
    TargetInTree(claudeDir, Agent, plugin.name, "");
    TargetInTree(claudeDir, Command, plugin.name, "");
    OutsideSkills(aDir, claudeDir);
    OutsideSkills(cDir, claudeDir);
    forall j | 0 <= j < |agents| ensures FileTarget(aDir, agents[j]) in k.fs {
      TargetInTree(claudeDir, Agent, plugin.name, agents[j]);
      OutsideSkills(FileTarget(aDir, agents[j]), claudeDir);
    }
    forall j | 0 <= j < |commands| ensures FileTarget(cDir, commands[j]) in k.fs {
      TargetInTree(claudeDir, Command, plugin.name, commands[j]);
      OutsideSkills(FileTarget(cDir, commands[j]), claudeDir);
    }
  }

  /** After a successful install of a plugin whose registry entry lists
      its components, the detector finds every one of them, and reports
      the plugin installed exactly when it has any. */
  lemma InstallThenDetect(fs: Fs, plugin: Plugin, claudeDir: string, force: bool, discovered: Components, readable: Fs, platform: Platform)
    requires InstallerLayout(platform)
    requires plugin.components.Some? && plugin.components.value != Components(None, None, None)
    requires forall k :: 0 <= k < |Listed(plugin.components.value.skills)| ==> '/' !in Listed(plugin.components.value.skills)[k]
    requires InstallPlugin(fs, plugin, claudeDir, force, discovered, readable).result.Ok?
    ensures var c := plugin.components.value;
      var d := DetectOne(InstallPlugin(fs, plugin, claudeDir, force, discovered, readable).fs, plugin, claudeDir, platform);
      && d.agents == Listed(c.agents) && d.commands == Listed(c.commands) && d.skills == Listed(c.skills)
      && (d.installed <==> Listed(c.agents) != [] || Listed(c.commands) != [] || Listed(c.skills) != [])
  {
    var c := plugin.components.value;
    assert SelectComponents(plugin.components, discovered) == c;
    InstallContents(fs, plugin, claudeDir, force, discovered, readable);
    DetectInstalled(InstallPlugin(fs, plugin, claudeDir, force, discovered, readable).fs, plugin, c, claudeDir, platform);
  }

  /** A file system holding every installed file of the components `c` is
      detected as holding exactly those components. */
  lemma DetectInstalled(after: Fs, plugin: Plugin, c: Components, claudeDir: string, platform: Platform)
    requires InstallerLayout(platform) && plugin.components == Some(c)
    requires |Listed(c.agents)| > 0 ==> PluginDir(claudeDir, Agent, plugin.name) in after
    requires forall k :: 0 <= k < |Listed(c.agents)| ==> FileTarget(PluginDir(claudeDir, Agent, plugin.name), Listed(c.agents)[k]) in after
    requires |Listed(c.commands)| > 0 ==> PluginDir(claudeDir, Command, plugin.name) in after
    requires forall k :: 0 <= k < |Listed(c.commands)| ==> FileTarget(PluginDir(claudeDir, Command, plugin.name), Listed(c.commands)[k]) in after
    requires forall k :: 0 <= k < |Listed(c.skills)| ==> PathJoin(KindRoot(claudeDir, Skill), Listed(c.skills)[k]) in after
    ensures var d := DetectOne(after, plugin, claudeDir, platform);
      && d.agents == Listed(c.agents) && d.commands == Listed(c.commands) && d.skills == Listed(c.skills)
  {
    FoundAll(after, claudeDir, platform.agents, plugin.name, Listed(c.agents));
    FoundAll(after, claudeDir, platform.commands, plugin.name, Listed(c.commands));
    assert forall s :: s + "" == s;
    PresentAll(after, KindRoot(claudeDir, Skill), Listed(c.skills), "");
  }

  /** After an uninstall, the detector finds nothing of the plugin on any
      platform whose directories are the installer's or absent. */
  lemma UninstallThenNothing(fs: Fs, plugin: Plugin, claudeDir: string, discovered: Components, platform: Platform)
    requires platform.agents.Some? ==> platform.agents == Some(KindDir(Agent))
    requires platform.commands.Some? ==> platform.commands == Some(KindDir(Command))
    requires platform.skills == KindDir(Skill)
    requires plugin.components.Some? && plugin.components.value != Components(None, None, None)
    ensures !DetectOne(UninstallPlugin(fs, plugin, claudeDir, discovered).1, plugin, claudeDir, platform).installed
  {
    var c := plugin.components.value;
    assert SelectComponents(plugin.components, discovered) == c;
    var after := UninstallPlugin(fs, plugin, claudeDir, discovered).1;
    assert forall s :: s + "" == s;
    PresentNone(after, KindRoot(claudeDir, Skill), Listed(c.skills), "");
  }

  /** A plugin whose only component is one agent, installed into an empty
      file system: it installs exactly when its source file can be
      read. */
  lemma OneAgentInstall(name: string, claudeDir: string, readable: Fs)
    ensures var plugin := Plugin("p", None, None, None);
      var c := Components(Some([name]), Some([]), Some([]));
      InstallPlugin({}, plugin, claudeDir, false, c, readable).result
        == if PathJoin(KindDir(Agent), name + Md) in readable then Ok(Counts(1, 0, 0)) else Err(Unreadable(Agent, name))
  {
    var dir := PluginDir(claudeDir, Agent, "p");
    var fs0: Fs := {KindRoot(claudeDir, Agent), KindRoot(claudeDir, Command), KindRoot(claudeDir, Skill)};
    assert FileTarget(dir, name) !in fs0 + {dir} by {
      JoinStarts(claudeDir, KindDir(Agent), "p");
      OtherBranch(dir, claudeDir, "agents", "commands");
      assert |FileTarget(dir, name)| > |dir| > |KindRoot(claudeDir, Skill)|;
    }
  }

  /** The two discoveries of a source holding only `agents/a.mdb.md`. */
  lemma InnerMdDiscovery()
    ensures DiscoverComponentsAsWritten(Listing(Some(["a.mdb.md"]), None, None)) == Components(Some(["ab.md"]), Some([]), Some([]))
    ensures DiscoverComponents(Listing(Some(["a.mdb.md"]), None, None)) == Components(Some(["a.mdb"]), Some([]), Some([]))
  {
    InnerMdExample();
  }

  /** The consequence of the inner `.md`: a plugin without declared
      components whose source holds only `agents/a.mdb.md` fails to
      install, because the name derived as written points at a file that
      does not exist. */
  lemma InnerMdInstallAsWritten()
    ensures InstallPlugin({}, Plugin("p", None, None, None), "/c", false,
                          DiscoverComponentsAsWritten(Listing(Some(["a.mdb.md"]), None, None)), {PathJoin("agents", "a.mdb.md")}).result
         == Err(Unreadable(Agent, "ab.md"))
  {
    InnerMdDiscovery();
    OneAgentInstall("ab.md", "/c", {PathJoin("agents", "a.mdb.md")});
    WrongFile();
  }

  /** The file the name derived as written points at is not the source's
      file. */
  lemma WrongFile()
    ensures PathJoin(KindDir(Agent), "ab.md" + Md) != PathJoin("agents", "a.mdb.md")
  {
    assert PathJoin(KindDir(Agent), "ab.md" + Md)[8] == 'b' != PathJoin("agents", "a.mdb.md")[8];
  }

  /** With the extension removed, the same plugin installs its agent. */
  lemma InnerMdInstallIntended()
    ensures InstallPlugin({}, Plugin("p", None, None, None), "/c", false,
                          DiscoverComponents(Listing(Some(["a.mdb.md"]), None, None)), {PathJoin("agents", "a.mdb.md")}).result
         == Ok(Counts(1, 0, 0))
  {
    InnerMdDiscovery();
    OneAgentInstall("a.mdb", "/c", {PathJoin("agents", "a.mdb.md")});
    assert "a.mdb" + Md == "a.mdb.md";
  }
}
