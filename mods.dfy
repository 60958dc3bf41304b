/**
 * Discovery of the installed mods (`ModsAPI` in `Mods.cs`, a static class, here
 * one object): the Thunderstore packages of the mod manager's manifest, keyed by
 * name, the loaded BepInEx plugins, and the package each plugin came from. A
 * plugin belongs to the package named like the directory it sits in below the
 * plugins root; any other plugin gets a package of its own.
 */
module Mods {
  import opened Wrappers
  import Formatting
  import SodaliteUtils

  /** The exceptions discovery can throw: `Substring` past the end, `GetDirectoryName` of an empty path. */
  datatype ModsError = ArgumentOutOfRange | InvalidPath

  /** `Path.DirectorySeparatorChar` on Windows. */
  const Sep: char := '\\'

  /** The author of the package made up for a plugin that belongs to none. */
  const OrphanAuthor: string := "Unknown"

  /** `System.Version`: major, minor, build and revision, the last two -1 when not given. */
  datatype SystemVersion = SystemVersion(major: int, minor: int, build: int, revision: int)

  /** `ThunderstorePackage.Version`. */
  datatype Version = Version(major: int, minor: int, patch: int)

  /** The implicit conversion from `System.Version`: the build number becomes the patch number. */
  function FromSystemVersion(v: SystemVersion): Version
  {
    Version(v.major, v.minor, v.build)
  }

  /** `Version.ToString()`: the three numbers joined by dots. */
  function VersionText(v: Version): string
  {
    Formatting.IntToString(v.major) + "." + Formatting.IntToString(v.minor) + "." + Formatting.IntToString(v.patch)
  }

  /** Reads a version back from the text `VersionText` writes: three numbers between two dots. */
  function ParseVersion(s: string): Option<Version>
  {
    var parts := SodaliteUtils.Split(s, '.');
    if |parts| != 3 then None
    else
      var major := Formatting.ParseInt(parts[0]);
      var minor := Formatting.ParseInt(parts[1]);
      var patch := Formatting.ParseInt(parts[2]);
      if major.Some? && minor.Some? && patch.Some? then Some(Version(major.value, minor.value, patch.value)) else None
  }

  /** A decimal number holds no dot. */
  lemma NoDot(n: int)
    ensures '.' !in Formatting.IntToString(n)
  {
    var digits := Formatting.NatToString(if n < 0 then -n else n);
    assert forall k :: 0 <= k < |digits| ==> digits[k] != '.';
    if n < 0 {
      assert Formatting.IntToString(n) == "-" + digits;
    }
  }

  /** The text of a version determines it: reading it back gives the same three numbers. */
  lemma VersionTextRoundTrip(v: Version)
    ensures ParseVersion(VersionText(v)) == Some(v)
  {
    var a, b, c := Formatting.IntToString(v.major), Formatting.IntToString(v.minor), Formatting.IntToString(v.patch);
    NoDot(v.major);
    NoDot(v.minor);
    NoDot(v.patch);
    assert SodaliteUtils.Join([b, c], '.') == b + ['.'] + c;
    assert SodaliteUtils.Join([a, b, c], '.') == a + ['.'] + (b + ['.'] + c);
    assert VersionText(v) == SodaliteUtils.Join([a, b, c], '.');
    SodaliteUtils.JoinSplit([a, b, c], '.');
    Formatting.IntToStringRoundTrip(v.major);
    Formatting.IntToStringRoundTrip(v.minor);
    Formatting.IntToStringRoundTrip(v.patch);
  }

  /**
   * A plugin version of only two parts (`1.0`, build -1) becomes patch -1, and its
   * package version reads `1.0.-1`.
   */
  lemma TwoPartVersion()
    ensures FromSystemVersion(SystemVersion(1, 0, -1, -1)) == Version(1, 0, -1)
    ensures VersionText(FromSystemVersion(SystemVersion(1, 0, -1, -1))) == "1.0.-1"
  {
    assert Formatting.NatToString(1) == "1";
    assert Formatting.NatToString(0) == "0";
  }

  /** The system version's major, minor and build survive the conversion and its text. */
  lemma ConversionKeepsBuild(v: SystemVersion)
    ensures ParseVersion(VersionText(FromSystemVersion(v))) == Some(Version(v.major, v.minor, v.build))
  {
    VersionTextRoundTrip(FromSystemVersion(v));
  }

  /** `PluginInfo`: the metadata a plugin declares and the path of its assembly. */
  datatype PluginInfo = PluginInfo(guid: string, name: string, version: SystemVersion, location: string)

  /** `ThunderstorePackage.Name`. */
  function PackageName(authorName: string, displayName: string): string
  {
    authorName + "-" + displayName
  }

  /** The key of the package made up for a plugin: `Unknown-` and the plugin's name. */
  lemma OrphanName(pluginName: string)
    ensures PackageName(OrphanAuthor, pluginName) == "Unknown-" + pluginName
    ensures |PackageName(OrphanAuthor, pluginName)| == |pluginName| + 8
  {
  }

  /** A Thunderstore package of the manifest, or one made up for a plugin. */
  class ThunderstorePackage {
    const authorName: string
    const displayName: string
    const enabled: bool
    const iconPath: string
    const version: Version
    /** `PluginsMutable`: the plugins found to belong to the package, in order. */
    var pluginList: seq<PluginInfo>

    /** The internal constructor: not enabled and without plugins. */
    constructor (authorName: string, displayName: string, iconPath: string, version: Version)
      ensures this.authorName == authorName && this.displayName == displayName
      ensures this.iconPath == iconPath && this.version == version
      ensures !enabled && pluginList == []
    {
      this.authorName := authorName;
      this.displayName := displayName;
      this.enabled := false;
      this.iconPath := iconPath;
      this.version := version;
      pluginList := [];
    }

    /** `Name`: the key of the package. */
    function Name(): (r: string)
      ensures r == PackageName(authorName, displayName)
      ensures |r| == |authorName| + 1 + |displayName| && r[|authorName|] == '-'
    {
      PackageName(authorName, displayName)
    }

    /** `ToString()`: the name, a dash and the version. */
    function ToString(): (r: string)
      ensures |r| > |Name()|
      ensures r[..|Name()|] == Name() && r[|Name()|] == '-'
      ensures ParseVersion(r[|Name()| + 1..]) == Some(version)
    {
      VersionTextRoundTrip(version);
      assert (Name() + "-" + VersionText(version))[|Name()| + 1..] == VersionText(version);
      Name() + "-" + VersionText(version)
    }
  }

  /** `TrimStart(c)`: the string without the copies of `c` it starts with. */
  function TrimStart(s: string, c: char): string
  {
    if s != [] && s[0] == c then TrimStart(s[1..], c) else s
  }

  /** Trimming leaves a suffix that does not start with `c`, after nothing but copies of `c`. */
  lemma {:induction false} TrimStartSpec(s: string, c: char)
    ensures var r := TrimStart(s, c);
      |r| <= |s| && r == s[|s| - |r|..] && (r == [] || r[0] != c)
      && forall k :: 0 <= k < |s| - |r| ==> s[k] == c
  {
    if s != [] && s[0] == c {
      var rest := s[1..];
      TrimStartSpec(rest, c);
      var r := TrimStart(rest, c);
      assert TrimStart(s, c) == r;
      assert rest[|rest| - |r|..] == s[|s| - |r|..];
      forall k | 0 <= k < |s| - |r|
        ensures s[k] == c
      {
        if k > 0 {
          assert s[k] == rest[k - 1];
        }
      }
    }
  }

  /** The position of the last `c` among the first `n` characters of `s`, or -1 when there is none. */
  function LastIndexBefore(s: string, c: char, n: nat): (r: int)
    requires n <= |s|
    ensures -1 <= r < n
  {
    if n == 0 then -1
    else if s[n - 1] == c then n - 1
    else LastIndexBefore(s, c, n - 1)
  }

  /** -1 exactly when there is no `c`, and otherwise a `c` with none after it. */
  lemma {:induction false} LastIndexBeforeSpec(s: string, c: char, n: nat)
    requires n <= |s|
    ensures var r := LastIndexBefore(s, c, n);
      (r == -1 <==> forall k :: 0 <= k < n ==> s[k] != c)
      && (r >= 0 ==> s[r] == c && forall k :: r < k < n ==> s[k] != c)
  {
    if n > 0 && s[n - 1] != c {
      LastIndexBeforeSpec(s, c, n - 1);
    }
  }

  /**
   * `Path.GetDirectoryName` of a relative path: an empty path throws; a file name alone
   * has the empty directory; otherwise everything before the last separator.
   */
  function DirectoryName(path: string): Result<string, ModsError>
  {
    if path == [] then Err(InvalidPath)
    else
      var i := LastIndexBefore(path, Sep, |path|);
      if i == -1 then Ok([]) else Ok(path[..i])
  }

  /** The directory of a path: an error exactly for the empty path, and the part before the last separator. */
  lemma DirectoryNameSpec(path: string)
    ensures var r := DirectoryName(path);
      (r.Err? <==> path == [])
      && (r.Ok? && Sep !in path ==> r.value == [])
      && (r.Ok? && Sep in path ==>
        |r.value| < |path| && r.value == path[..|r.value|] && path[|r.value|] == Sep
        && forall k :: |r.value| < k < |path| ==> path[k] != Sep)
  {
    LastIndexBeforeSpec(path, Sep, |path|);
    var r := DirectoryName(path);
    if r.Ok? && Sep !in path {
      assert forall k :: 0 <= k < |path| ==> path[k] != Sep;
    }
    if r.Ok? && Sep in path {
      var j :| 0 <= j < |path| && path[j] == Sep;
    }
  }

  /**
   * The name of the package a plugin at `location` would belong to: the directory of
   * its path below the plugins root `basePath`, without leading separators. A location
   * shorter than the root throws.
   */
  function PackageDirectory(location: string, basePath: string): Result<string, ModsError>
  {
    if |location| < |basePath| then Err(ArgumentOutOfRange)
    else DirectoryName(TrimStart(location[|basePath|..], Sep))
  }

  /** The directory is worked out exactly for a location at least as long as the root that does not end there. */
  lemma PackageDirectoryFails(location: string, basePath: string)
    ensures PackageDirectory(location, basePath).Err? <==>
      |location| < |basePath| || forall k :: |basePath| <= k < |location| ==> location[k] == Sep
    ensures |location| < |basePath| ==> PackageDirectory(location, basePath) == Err(ArgumentOutOfRange)
  {
    if |location| >= |basePath| {
      var rel := location[|basePath|..];
      TrimStartSpec(rel, Sep);
      DirectoryNameSpec(TrimStart(rel, Sep));
      if TrimStart(rel, Sep) != [] {
        var t := TrimStart(rel, Sep);
        assert location[|location| - |t|] == t[0];
      }
    }
  }

  /** An assembly in a directory of its own below the plugins root belongs to the package named like the directory. */
  lemma InstalledPackageDirectory(basePath: string, dir: string, file: string)
    requires dir != [] && dir[0] != Sep && Sep !in dir && Sep !in file
    ensures PackageDirectory(basePath + [Sep] + dir + [Sep] + file, basePath) == Ok(dir)
  {
    var location := basePath + [Sep] + dir + [Sep] + file;
    assert location[|basePath|..] == [Sep] + (dir + [Sep] + file);
    assert ([Sep] + (dir + [Sep] + file))[1..] == dir + [Sep] + file;
    var rel := dir + [Sep] + file;
    assert TrimStart(rel, Sep) == rel;
    assert rel[|dir|] == Sep;
    DirectoryOfPath(dir, file);
  }

  lemma DirectoryOfPath(dir: string, file: string)
    requires Sep !in dir && Sep !in file
    ensures DirectoryName(dir + [Sep] + file) == Ok(dir)
  {
    var path := dir + [Sep] + file;
    DirectoryNameSpec(path);
    assert path[|dir|] == Sep;
    assert forall k :: |dir| < k < |path| ==> path[k] == file[k - |dir| - 1];
    assert forall k :: 0 <= k < |dir| ==> path[k] == dir[k];
    assert path[..|dir|] == dir;
  }

  /** An assembly straight in the plugins root has no package directory. */
  lemma RootPluginDirectory(basePath: string, file: string)
    requires file != [] && Sep !in file
    ensures PackageDirectory(basePath + [Sep] + file, basePath) == Ok([])
  {
    var location := basePath + [Sep] + file;
    assert location[|basePath|..] == [Sep] + file;
    assert ([Sep] + file)[1..] == file;
    assert TrimStart(file, Sep) == file;
    DirectoryNameSpec(file);
  }

  /** `ThunderstorePackagesMutable[package.Name] = package` for each manifest package in turn. */
  function Keyed(installed: seq<ThunderstorePackage>): map<string, ThunderstorePackage>
  {
    if installed == [] then map[]
    else
      var last := installed[|installed| - 1];
      Keyed(installed[..|installed| - 1])[last.Name() := last]
  }

  /**
   * The manifest by name: a name is a key exactly when some package has it, and it
   * holds the last package of that name.
   */
  lemma {:induction false} KeyedDomain(installed: seq<ThunderstorePackage>)
    ensures forall n :: n in Keyed(installed) <==> exists k :: 0 <= k < |installed| && installed[k].Name() == n
  {
    if installed != [] {
      var front := installed[..|installed| - 1];
      KeyedDomain(front);
      assert forall k :: 0 <= k < |front| ==> front[k] == installed[k];
    }
  }

  lemma {:induction false} KeyedLast(installed: seq<ThunderstorePackage>, k: nat)
    requires k < |installed|
    requires forall j :: k < j < |installed| ==> installed[j].Name() != installed[k].Name()
    ensures installed[k].Name() in Keyed(installed) && Keyed(installed)[installed[k].Name()] == installed[k]
  {
    if k < |installed| - 1 {
      var front := installed[..|installed| - 1];
      KeyedLast(front, k);
    }
  }

  lemma {:induction false} KeyedValues(installed: seq<ThunderstorePackage>)
    ensures forall v :: v in Keyed(installed).Values ==> v in installed
  {
    if installed != [] {
      var front := installed[..|installed| - 1];
      KeyedValues(front);
      assert forall v :: v in front ==> v in installed;
    }
  }

  /** The manifest loop of `Discover`. */
  method KeyByName(installed: seq<ThunderstorePackage>) returns (packages: map<string, ThunderstorePackage>)
    ensures packages == Keyed(installed)
  {
    packages := map[];
    var i := 0;
    while i < |installed|
      invariant 0 <= i <= |installed|
      invariant packages == Keyed(installed[..i])
    {
      assert installed[..i + 1][..i] == installed[..i];
      packages := packages[installed[i].Name() := installed[i]];
      i := i + 1;
    }
    assert installed[..i] == installed;
  }

  class ModsApi {
    /** `ThunderstorePackages`, `BepInExPlugins` and `PluginToPackageLookup`. */
    var packages: map<string, ThunderstorePackage>
    var plugins: seq<PluginInfo>
    var lookup: map<PluginInfo, ThunderstorePackage>
    /** The packages the registries can reach. */
    ghost var repr: set<ThunderstorePackage>

    constructor ()
      ensures packages == map[] && plugins == [] && lookup == map[] && Matched()
    {
      packages := map[];
      plugins := [];
      lookup := map[];
      repr := {};
    }

    /** Every plugin in the lookup is listed, and is one of the plugins of the package it maps to. */
    ghost predicate Matched()
      reads this, repr
    {
      packages.Values <= repr && lookup.Values <= repr
      && forall q :: q in lookup ==> q in plugins && lookup[q] in repr && q in lookup[q].pluginList
    }

    /**
     * The package a listed plugin goes to, given its directory: the package of that name
     * when there is one, and otherwise a fresh package of its own, `Unknown` by the plugin's
     * name, holding only it, not enabled, with the plugin's version, stored under its name.
     */
    method Place(p: PluginInfo, dir: string)
      requires Matched() && p in plugins
      modifies this, if dir != [] && dir in packages then {packages[dir]} else {}
      ensures Matched() && old(packages).Keys <= packages.Keys && plugins == old(plugins)
      ensures old(repr) <= repr && fresh(repr - old(repr))
      ensures dir != [] && dir in old(packages) ==>
        var pkg := old(packages)[dir];
        packages == old(packages) && lookup == old(lookup)[p := pkg] && pkg.pluginList == old(pkg.pluginList) + [p]
      ensures !(dir != [] && dir in old(packages)) ==>
        p in lookup && lookup == old(lookup)[p := lookup[p]]
        && fresh(lookup[p]) && packages == old(packages)[PackageName(OrphanAuthor, p.name) := lookup[p]]
        && lookup[p].authorName == OrphanAuthor && lookup[p].displayName == p.name && lookup[p].iconPath == []
        && lookup[p].version == FromSystemVersion(p.version) && !lookup[p].enabled && lookup[p].pluginList == [p]
    {
      if dir != [] && dir in packages {
        JoinPackage(p, packages[dir]);
      } else {
        var orphan := AddOrphan(p);
      }
    }

    /** A plugin joins a known package: it is added to the package's plugins and mapped to it. */
    method JoinPackage(p: PluginInfo, pkg: ThunderstorePackage)
      requires Matched() && p in plugins && pkg in repr
      modifies this, pkg
      ensures Matched() && repr == old(repr)
      ensures packages == old(packages) && plugins == old(plugins) && lookup == old(lookup)[p := pkg]
      ensures pkg.pluginList == old(pkg.pluginList) + [p]
    {
      pkg.pluginList := pkg.pluginList + [p];
      lookup := lookup[p := pkg];
    }

    /** A plugin of no known package gets a fresh one, stored by its name and holding only the plugin. */
    method AddOrphan(p: PluginInfo) returns (orphan: ThunderstorePackage)
      requires Matched() && p in plugins
      modifies this
      ensures Matched() && repr == old(repr) + {orphan}
      ensures fresh(orphan) && orphan.authorName == OrphanAuthor && orphan.displayName == p.name
      ensures orphan.iconPath == [] && orphan.version == FromSystemVersion(p.version)
      ensures !orphan.enabled && orphan.pluginList == [p]
      ensures packages == old(packages)[PackageName(OrphanAuthor, p.name) := orphan]
      ensures plugins == old(plugins) && lookup == old(lookup)[p := orphan]
    {
      orphan := new ThunderstorePackage(OrphanAuthor, p.name, [], FromSystemVersion(p.version));
      orphan.pluginList := orphan.pluginList + [p];
      repr := repr + {orphan};
      packages := packages[orphan.Name() := orphan];
      lookup := lookup[p := orphan];
    }

    /**
     * One turn of the plugin loop of `Discover`: the plugin is listed, then its package
     * directory is worked out, which can throw, and the plugin is placed by it.
     */
    method MatchPlugin(p: PluginInfo, basePath: string) returns (r: Result<(), ModsError>)
      requires Matched()
      modifies this, repr
      ensures Matched() && old(repr) <= repr && fresh(repr - old(repr))
      ensures plugins == old(plugins) + [p] && old(packages).Keys <= packages.Keys && old(lookup).Keys <= lookup.Keys
      ensures r.Err? <==> PackageDirectory(p.location, basePath).Err?
      ensures r.Err? ==> r.error == PackageDirectory(p.location, basePath).error
      ensures r.Ok? ==> p in lookup
    {
      plugins := plugins + [p];
      var dir := PackageDirectory(p.location, basePath);
      if dir.Err? {
        return Err(dir.error);
      }
      Place(p, dir.value);
      r := Ok(());
    }

    /**
     * The plugin loop of `Discover`: matches each loaded plugin in turn, and stops at the
     * first whose directory cannot be worked out. Every plugin matched is in the lookup,
     * and no name of a package is lost.
     */
    method MatchAll(loaded: seq<PluginInfo>, basePath: string) returns (r: Result<(), ModsError>)
      requires Matched()
      modifies this, repr
      ensures Matched() && old(repr) <= repr && fresh(repr - old(repr))
      ensures old(packages).Keys <= packages.Keys
      ensures r.Ok? <==> forall k :: 0 <= k < |loaded| ==> PackageDirectory(loaded[k].location, basePath).Ok?
      ensures r.Ok? ==> plugins == old(plugins) + loaded && forall p :: p in loaded ==> p in lookup
      ensures r.Err? ==>
        exists k :: (0 <= k < |loaded| && plugins == old(plugins) + loaded[..k + 1]
          && PackageDirectory(loaded[k].location, basePath).Err?
          && r.error == PackageDirectory(loaded[k].location, basePath).error)
    {
      var i := 0;
      while i < |loaded|
        invariant 0 <= i <= |loaded|
        invariant plugins == old(plugins) + loaded[..i]
        invariant forall k :: 0 <= k < i ==> PackageDirectory(loaded[k].location, basePath).Ok?
        invariant Matched() && old(repr) <= repr && fresh(repr - old(repr))
        invariant forall k :: 0 <= k < i ==> loaded[k] in lookup
        invariant old(packages).Keys <= packages.Keys
      {
        ghost var before := repr;
        r := MatchPlugin(loaded[i], basePath);
        assert repr - old(repr) <= (before - old(repr)) + (repr - before);
        if r.Err? {
          assert plugins == old(plugins) + loaded[..i + 1];
          return;
        }
        assert loaded[..i + 1] == loaded[..i] + [loaded[i]];
        i := i + 1;
      }
      assert loaded[..i] == loaded;
      r := Ok(());
    }

    /**
     * `Discover`: clears the three registries; keys the manifest's packages by name, when
     * there is a manifest; then matches each loaded plugin in turn. Every plugin is listed
     * and ends up in the lookup, inside the package it is mapped to, and every manifest
     * name stays a key. The exception of the first plugin whose path cannot be worked out
     * ends the loop.
     */
    method Discover(installed: Option<seq<ThunderstorePackage>>, loaded: seq<PluginInfo>, basePath: string)
      returns (r: Result<(), ModsError>)
      modifies this, if installed.Some? then set v | v in installed.value else {}
      ensures Matched()
      ensures r.Ok? <==> forall k :: 0 <= k < |loaded| ==> PackageDirectory(loaded[k].location, basePath).Ok?
      ensures r.Ok? ==> plugins == loaded && forall p :: p in loaded ==> p in lookup
      ensures r.Err? ==>
        exists k :: (0 <= k < |loaded| && plugins == loaded[..k + 1]
          && PackageDirectory(loaded[k].location, basePath).Err?
          && r.error == PackageDirectory(loaded[k].location, basePath).error)
      ensures installed.Some? ==> Keyed(installed.value).Keys <= packages.Keys
      ensures installed.None? ==> fresh(repr)
    {
      packages := map[];
      plugins := [];
      lookup := map[];
      repr := {};
      if installed.Some? {
        packages := KeyByName(installed.value);
        KeyedValues(installed.value);
        repr := set v | v in installed.value;
      }
      r := MatchAll(loaded, basePath);
    }
  }
}
