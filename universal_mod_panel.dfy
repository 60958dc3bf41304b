/**
 * The universal mod panel (`UniversalModPanel.cs`): a set of named pages, one of
 * them current, with a history stack that `Navigate` pushes onto and
 * `NavigateBack` pops, a breadcrumb naming the history and the current page, and
 * the static registries that plugins fill before the panel wakes up: the
 * configuration entries drawn per plugin, custom input fields, custom pages and
 * homepage buttons.
 *
 * The history stack is a sequence whose first element is its top, which is also
 * the order a .NET `Stack<T>` enumerates in.
 */
module UniversalModPanel {
  import opened Wrappers
  import ConfigEntries

  /** A page behaviour: the name of its game object and the `DisplayName` shown in the breadcrumb. */
  datatype Page = Page(name: string, displayName: string)

  /** The exceptions the panel and its registries throw. */
  datatype PanelError =
    | KeyNotFound(key: string)
    | InvalidOperation(pageName: string)
    | NullReference
    | DuplicateKey(key: string)
    | EmptyArgument(paramName: string)
    | NullArgument(paramName: string)

  /** The game object name of the home page, which is never pushed onto the history. */
  const HomeName: string := "Home"

  /** The separator of the breadcrumb. */
  const CrumbSeparator: string := " / "

  /** A plugin's `PluginInfo`, identified by its GUID. */
  datatype PluginInfo = PluginInfo(guid: string)

  /** A `ConfigDefinition`: the section and key of a configuration entry. */
  datatype ConfigDefinition = ConfigDefinition(section: string, key: string)

  /** A `ConfigFile` as a dictionary: its keys in enumeration order and the entry under each. */
  datatype ConfigFile = ConfigFile(keys: seq<ConfigDefinition>, entries: map<ConfigDefinition, ConfigEntries.ConfigEntry>)

  /** A custom config field prefab (`ConfigFieldBase`), identified by its name. */
  datatype FieldPrefab = FieldPrefab(name: string)

  /** What a dictionary's keys and indexer promise: every key once, every entry under a key. */
  predicate WellFormed(file: ConfigFile)
  {
    (forall k :: 0 <= k < |file.keys| ==> file.keys[k] in file.entries)
    && (forall d :: d in file.entries ==> d in file.keys)
    && (forall i, j :: 0 <= i < j < |file.keys| ==> file.keys[i] != file.keys[j])
  }

  /** The entries of a config file in the order of its keys. */
  function InKeyOrder(file: ConfigFile): seq<ConfigEntries.ConfigEntry>
    requires WellFormed(file)
  {
    seq(|file.keys|, k requires 0 <= k < |file.keys| => file.entries[file.keys[k]])
  }

  /** In key order every entry of the file is there, once per key, and nothing else. */
  lemma InKeyOrderCovers(file: ConfigFile)
    requires WellFormed(file)
    ensures |InKeyOrder(file)| == |file.keys|
    ensures forall d :: d in file.entries ==> file.entries[d] in InKeyOrder(file)
    ensures forall e :: e in InKeyOrder(file) ==> exists d :: d in file.entries && file.entries[d] == e
  {
    var r := InKeyOrder(file);
    forall d | d in file.entries
      ensures file.entries[d] in r
    {
      var k :| 0 <= k < |file.keys| && file.keys[k] == d;
      assert r[k] == file.entries[d];
    }
    forall e | e in r
      ensures exists d :: d in file.entries && file.entries[d] == e
    {
      var k :| 0 <= k < |r| && r[k] == e;
      assert file.keys[k] in file.entries && file.entries[file.keys[k]] == e;
    }
  }

  /** The configuration entries of every plugin after `RegisterPluginSettings(plugin, configFile)`. */
  function WithFile(configs: map<PluginInfo, seq<ConfigEntries.ConfigEntry>>, plugin: PluginInfo, file: ConfigFile)
    : map<PluginInfo, seq<ConfigEntries.ConfigEntry>>
    requires WellFormed(file)
  {
    if |file.keys| == 0 then configs else configs[plugin := InKeyOrder(file)]
  }

  /** `Dictionary.Add` on a dictionary kept in insertion order: a duplicate key throws. */
  function Keys<V>(pairs: seq<(string, V)>): (r: seq<string>)
    ensures |r| == |pairs| && forall k :: 0 <= k < |pairs| ==> r[k] == pairs[k].0
  {
    seq(|pairs|, k requires 0 <= k < |pairs| => pairs[k].0)
  }

  /** No key occurs twice. */
  predicate DistinctKeys<V>(pairs: seq<(string, V)>)
  {
    forall i, j :: 0 <= i < j < |pairs| ==> pairs[i].0 != pairs[j].0
  }

  /** The plugins' registrations after `RegisterUnregisteredPluginConfigs`, plugin by plugin. */
  function RegisterMissing(configs: map<PluginInfo, seq<ConfigEntries.ConfigEntry>>, plugins: seq<(PluginInfo, ConfigFile)>)
    : map<PluginInfo, seq<ConfigEntries.ConfigEntry>>
    requires forall k :: 0 <= k < |plugins| ==> WellFormed(plugins[k].1)
    decreases |plugins|
  {
    if plugins == [] then configs
    else
      var next := if plugins[0].0 in configs then configs else WithFile(configs, plugins[0].0, plugins[0].1);
      RegisterMissing(next, plugins[1..])
  }

  /** No registration is overwritten. */
  lemma {:induction false} RegisterMissingKeeps(configs: map<PluginInfo, seq<ConfigEntries.ConfigEntry>>, plugins: seq<(PluginInfo, ConfigFile)>)
    requires forall k :: 0 <= k < |plugins| ==> WellFormed(plugins[k].1)
    ensures forall p :: p in configs ==> p in RegisterMissing(configs, plugins) && RegisterMissing(configs, plugins)[p] == configs[p]
    decreases |plugins|
  {
    if plugins != [] {
      var next := if plugins[0].0 in configs then configs else WithFile(configs, plugins[0].0, plugins[0].1);
      RegisterMissingKeeps(next, plugins[1..]);
    }
  }

  /** A plugin ends up registered exactly when it was, or one of its config files has entries. */
  lemma {:induction false} RegisterMissingDomain(configs: map<PluginInfo, seq<ConfigEntries.ConfigEntry>>, plugins: seq<(PluginInfo, ConfigFile)>)
    requires forall k :: 0 <= k < |plugins| ==> WellFormed(plugins[k].1)
    ensures forall p :: p in RegisterMissing(configs, plugins) <==>
      p in configs || exists k :: 0 <= k < |plugins| && plugins[k].0 == p && |plugins[k].1.keys| > 0
    decreases |plugins|
  {
    if plugins != [] {
      var next := if plugins[0].0 in configs then configs else WithFile(configs, plugins[0].0, plugins[0].1);
      var tail := plugins[1..];
      RegisterMissingDomain(next, tail);
      var r := RegisterMissing(configs, plugins);
      assert r == RegisterMissing(next, tail);
      forall p | p in r
        ensures p in configs || exists k :: 0 <= k < |plugins| && plugins[k].0 == p && |plugins[k].1.keys| > 0
      {
        if p !in configs && p !in next {
          var k :| 0 <= k < |tail| && tail[k].0 == p && |tail[k].1.keys| > 0;
          assert plugins[k + 1] == tail[k];
        }
      }
      forall p | p !in configs && exists k :: 0 <= k < |plugins| && plugins[k].0 == p && |plugins[k].1.keys| > 0
        ensures p in r
      {
        var k :| 0 <= k < |plugins| && plugins[k].0 == p && |plugins[k].1.keys| > 0;
        if k > 0 {
          assert tail[k - 1] == plugins[k];
        } else {
          RegisterMissingKeeps(next, tail);
        }
      }
      RegisterMissingKeeps(next, tail);
    }
  }

  /** A plugin that was not registered is registered with the entries of one of its config files, in key order. */
  lemma {:induction false} RegisterMissingEntries(configs: map<PluginInfo, seq<ConfigEntries.ConfigEntry>>, plugins: seq<(PluginInfo, ConfigFile)>)
    requires forall k :: 0 <= k < |plugins| ==> WellFormed(plugins[k].1)
    ensures forall p :: p in RegisterMissing(configs, plugins) && p !in configs ==>
      exists k :: 0 <= k < |plugins| && plugins[k].0 == p && |plugins[k].1.keys| > 0
        && RegisterMissing(configs, plugins)[p] == InKeyOrder(plugins[k].1)
    decreases |plugins|
  {
    if plugins != [] {
      var next := if plugins[0].0 in configs then configs else WithFile(configs, plugins[0].0, plugins[0].1);
      var tail := plugins[1..];
      RegisterMissingEntries(next, tail);
      RegisterMissingKeeps(next, tail);
      var r := RegisterMissing(configs, plugins);
      assert r == RegisterMissing(next, tail);
      forall p | p in r && p !in configs
        ensures exists k :: 0 <= k < |plugins| && plugins[k].0 == p && |plugins[k].1.keys| > 0 && r[p] == InKeyOrder(plugins[k].1)
      {
        if p in next {
          assert plugins[0].0 == p && |plugins[0].1.keys| > 0 && r[p] == InKeyOrder(plugins[0].1);
        } else {
          var k :| 0 <= k < |tail| && tail[k].0 == p && |tail[k].1.keys| > 0 && r[p] == InKeyOrder(tail[k].1);
          assert plugins[k + 1] == tail[k];
        }
      }
    }
  }

  /** The building half of `RegisterPluginSettings(plugin, configFile)`: the entries in key order, one by one. */
  method EntriesInKeyOrder(file: ConfigFile) returns (entries: seq<ConfigEntries.ConfigEntry>)
    requires WellFormed(file)
    ensures entries == InKeyOrder(file)
  {
    entries := [];
    var i := 0;
    while i < |file.keys|
      invariant 0 <= i <= |file.keys|
      invariant |entries| == i && forall k :: 0 <= k < i ==> entries[k] == file.entries[file.keys[k]]
    {
      entries := entries + [file.entries[file.keys[i]]];
      i := i + 1;
    }
  }

  /** The static registries, filled by plugins before any panel wakes up. */
  class Registry {
    /** `RegisteredConfigs`. */
    var configs: map<PluginInfo, seq<ConfigEntries.ConfigEntry>>
    /** `RegisteredInputFields`. */
    var inputFields: map<FieldPrefab, ConfigEntries.ConfigEntry -> bool>
    /** `RegisteredCustomPages`, in the order they were added. */
    var customPages: seq<(string, Page)>
    /** `CustomHomepageButtons`: button text and target page, in the order they were added. */
    var homepageButtons: seq<(string, string)>

    /** The two dictionaries kept in insertion order hold each key once. */
    predicate Valid()
      reads this
    {
      DistinctKeys(customPages) && DistinctKeys(homepageButtons)
    }

    constructor ()
      ensures configs == map[] && inputFields == map[] && customPages == [] && homepageButtons == []
      ensures Valid()
    {
      configs := map[];
      inputFields := map[];
      customPages := [];
      homepageButtons := [];
    }

    /** `RegisterPluginSettings(plugin, params configEntries)`: the plugin's entries, replacing any earlier ones. */
    method RegisterPluginSettings(plugin: PluginInfo, entries: seq<ConfigEntries.ConfigEntry>)
      modifies this
      ensures configs == old(configs)[plugin := entries]
      ensures inputFields == old(inputFields) && customPages == old(customPages) && homepageButtons == old(homepageButtons)
    {
      configs := configs[plugin := entries];
    }

    /** `RegisterPluginSettings(plugin, configFile)`: an empty file registers nothing, any other its entries in key order. */
    method RegisterPluginSettingsFile(plugin: PluginInfo, file: ConfigFile)
      requires WellFormed(file)
      modifies this
      ensures configs == WithFile(old(configs), plugin, file)
      ensures inputFields == old(inputFields) && customPages == old(customPages) && homepageButtons == old(homepageButtons)
    {
      if |file.keys| == 0 {
        return;
      }
      var entries := EntriesInKeyOrder(file);
      RegisterPluginSettings(plugin, entries);
    }

    /** `RegisterConfigField`: the field is drawn for the entries the predicate accepts, replacing an earlier predicate. */
    method RegisterConfigField(inputField: FieldPrefab, accepts: ConfigEntries.ConfigEntry -> bool)
      modifies this
      ensures inputFields == old(inputFields)[inputField := accepts]
      ensures configs == old(configs) && customPages == old(customPages) && homepageButtons == old(homepageButtons)
    {
      inputFields := inputFields[inputField := accepts];
    }

    /** `RegisterCustomPage`: an empty identifier or a missing page is refused, and so is an identifier already taken. */
    method RegisterCustomPage(identifier: string, page: Option<Page>) returns (r: Result<(), PanelError>)
      requires Valid()
      modifies this
      ensures Valid()
      ensures identifier == "" ==> r == Err(EmptyArgument("identifier"))
      ensures identifier != "" && page.None? ==> r == Err(NullArgument("page"))
      ensures identifier != "" && page.Some? && identifier in Keys(old(customPages)) ==> r == Err(DuplicateKey(identifier))
      ensures r.Err? ==> customPages == old(customPages)
      ensures r.Ok? <==> identifier != "" && page.Some? && identifier !in Keys(old(customPages))
      ensures r.Ok? ==> customPages == old(customPages) + [(identifier, page.value)]
      ensures configs == old(configs) && inputFields == old(inputFields) && homepageButtons == old(homepageButtons)
    {
      if identifier == "" {
        return Err(EmptyArgument("identifier"));
      }
      if page.None? {
        return Err(NullArgument("page"));
      }
      if identifier in Keys(customPages) {
        return Err(DuplicateKey(identifier));
      }
      customPages := customPages + [(identifier, page.value)];
      return Ok(());
    }

    /** `AddHomepageButton`: empty button text or target is refused, and so is button text already used. */
    method AddHomepageButton(buttonText: string, targetPage: string) returns (r: Result<(), PanelError>)
      requires Valid()
      modifies this
      ensures Valid()
      ensures buttonText == "" ==> r == Err(EmptyArgument("buttonText"))
      ensures buttonText != "" && targetPage == "" ==> r == Err(EmptyArgument("targetPage"))
      ensures buttonText != "" && targetPage != "" && buttonText in Keys(old(homepageButtons)) ==> r == Err(DuplicateKey(buttonText))
      ensures r.Err? ==> homepageButtons == old(homepageButtons)
      ensures r.Ok? <==> buttonText != "" && targetPage != "" && buttonText !in Keys(old(homepageButtons))
      ensures r.Ok? ==> homepageButtons == old(homepageButtons) + [(buttonText, targetPage)]
      ensures configs == old(configs) && inputFields == old(inputFields) && customPages == old(customPages)
    {
      if buttonText == "" {
        return Err(EmptyArgument("buttonText"));
      }
      if targetPage == "" {
        return Err(EmptyArgument("targetPage"));
      }
      if buttonText in Keys(homepageButtons) {
        return Err(DuplicateKey(buttonText));
      }
      homepageButtons := homepageButtons + [(buttonText, targetPage)];
      return Ok(());
    }

    /**
     * `RegisterUnregisteredPluginConfigs` over the plugins on the chainloader's manager object,
     * in order: a plugin already registered is skipped, any other registers its config file.
     */
    method RegisterUnregisteredPluginConfigs(plugins: seq<(PluginInfo, ConfigFile)>)
      requires forall k :: 0 <= k < |plugins| ==> WellFormed(plugins[k].1)
      modifies this
      ensures configs == RegisterMissing(old(configs), plugins)
      ensures inputFields == old(inputFields) && customPages == old(customPages) && homepageButtons == old(homepageButtons)
    {
      var i := 0;
      while i < |plugins|
        invariant 0 <= i <= |plugins|
        invariant RegisterMissing(configs, plugins[i..]) == RegisterMissing(old(configs), plugins)
        invariant inputFields == old(inputFields) && customPages == old(customPages) && homepageButtons == old(homepageButtons)
      {
        assert plugins[i..][1..] == plugins[i + 1..];
        var (info, file) := plugins[i];
        if info !in configs {
          RegisterPluginSettingsFile(info, file);
        }
        i := i + 1;
      }
      assert plugins[i..] == [];
    }
  }

  /** The pages added one by one to a dictionary, and the exception that stopped it if a name was taken. */
  datatype Filled = Filled(pages: map<string, Page>, error: Option<PanelError>)

  /** `_pages.Add` for each named page in turn; a name already present throws, keeping what was added before. */
  function AddAll(pages: map<string, Page>, named: seq<(string, Page)>): Filled
    decreases |named|
  {
    if named == [] then Filled(pages, None)
    else if named[0].0 in pages then Filled(pages, Some(DuplicateKey(named[0].0)))
    else AddAll(pages[named[0].0 := named[0].1], named[1..])
  }

  /** Adding succeeds exactly when the names are distinct and new. */
  lemma {:induction false} AddAllSucceeds(pages: map<string, Page>, named: seq<(string, Page)>)
    ensures AddAll(pages, named).error.None? <==>
      DistinctKeys(named) && forall k :: 0 <= k < |named| ==> named[k].0 !in pages
    decreases |named|
  {
    if named != [] && named[0].0 !in pages {
      var next := pages[named[0].0 := named[0].1];
      var tail := named[1..];
      AddAllSucceeds(next, tail);
      assert forall k :: 0 <= k < |tail| ==> tail[k] == named[k + 1];
      if DistinctKeys(named) && forall k :: 0 <= k < |named| ==> named[k].0 !in pages {
        forall k | 0 <= k < |tail|
          ensures tail[k].0 !in next
        {
          assert tail[k] == named[k + 1];
        }
        assert DistinctKeys(tail) by {
          forall i, j | 0 <= i < j < |tail|
            ensures tail[i].0 != tail[j].0
          {
            assert tail[i] == named[i + 1] && tail[j] == named[j + 1];
          }
        }
      }
    }
  }

  /** When adding succeeds, every page is found under its name, the old ones are kept, and nothing else is added. */
  lemma {:induction false} AddAllContents(pages: map<string, Page>, named: seq<(string, Page)>)
    requires AddAll(pages, named).error.None?
    ensures forall n :: n in AddAll(pages, named).pages <==> n in pages || n in Keys(named)
    ensures forall k :: 0 <= k < |named| ==>
      named[k].0 in AddAll(pages, named).pages && AddAll(pages, named).pages[named[k].0] == named[k].1
    ensures forall n :: n in pages ==> n in AddAll(pages, named).pages && AddAll(pages, named).pages[n] == pages[n]
    decreases |named|
  {
    if named != [] {
      var next := pages[named[0].0 := named[0].1];
      var tail := named[1..];
      var out := AddAll(pages, named).pages;
      assert AddAll(pages, named) == AddAll(next, tail);
      AddAllContents(next, tail);
      assert Keys(named) == [named[0].0] + Keys(tail);
      forall k | 0 <= k < |named|
        ensures named[k].0 in out && out[named[k].0] == named[k].1
      {
        if k > 0 {
          assert named[k] == tail[k - 1];
        }
      }
    }
  }

  /** `Instantiate` of a page prefab: Unity names the copy after the prefab with "(Clone)" appended. */
  function Instance(prefab: Page): Page
  {
    prefab.(name := prefab.name + "(Clone)")
  }

  /** The pages of a panel: the prefab's pages under their object names, then the custom pages' copies under their identifiers. */
  function PanelPages(serialized: seq<Page>, custom: seq<(string, Page)>): Filled
  {
    AddAll(map[], seq(|serialized|, k requires 0 <= k < |serialized| => (serialized[k].name, serialized[k]))
      + seq(|custom|, k requires 0 <= k < |custom| => (custom[k].0, Instance(custom[k].1))))
  }

  /**
   * A panel wakes up with its pages exactly when no two pages share a name, and then each
   * prefab page is found under its object name and a copy of each custom page under its identifier.
   */
  lemma PanelPagesFound(serialized: seq<Page>, custom: seq<(string, Page)>)
    ensures var named := seq(|serialized|, k requires 0 <= k < |serialized| => (serialized[k].name, serialized[k]))
      + seq(|custom|, k requires 0 <= k < |custom| => (custom[k].0, Instance(custom[k].1)));
      PanelPages(serialized, custom).error.None? <==> DistinctKeys(named)
    ensures PanelPages(serialized, custom).error.None? ==>
      (forall k :: 0 <= k < |serialized| ==>
        serialized[k].name in PanelPages(serialized, custom).pages
        && PanelPages(serialized, custom).pages[serialized[k].name] == serialized[k])
      && (forall k :: 0 <= k < |custom| ==>
        custom[k].0 in PanelPages(serialized, custom).pages
        && PanelPages(serialized, custom).pages[custom[k].0] == Instance(custom[k].1))
  {
    var fromPrefab := seq(|serialized|, k requires 0 <= k < |serialized| => (serialized[k].name, serialized[k]));
    var fromCustom := seq(|custom|, k requires 0 <= k < |custom| => (custom[k].0, Instance(custom[k].1)));
    var named := fromPrefab + fromCustom;
    assert PanelPages(serialized, custom) == AddAll(map[], named);
    AddAllSucceeds(map[], named);
    if AddAll(map[], named).error.None? {
      AddAllContents(map[], named);
      forall k | 0 <= k < |serialized|
        ensures named[k] == (serialized[k].name, serialized[k])
      {
        assert named[k] == fromPrefab[k];
      }
      forall k | 0 <= k < |custom|
        ensures named[|serialized| + k] == (custom[k].0, Instance(custom[k].1))
      {
        assert named[|serialized| + k] == fromCustom[k];
      }
    }
  }

  /** The history and current page of a panel. */
  datatype Nav = Nav(stack: seq<Page>, current: Option<Page>)

  /** Going to `page`: the current page is pushed unless it is the home page. */
  function Pushed(n: Nav, page: Page): Nav
    requires n.current.Some?
  {
    if n.current.value.name != HomeName then Nav([n.current.value] + n.stack, Some(page))
    else Nav(n.stack, Some(page))
  }

  /** Going back: the top of the history becomes current; with no history nothing changes. */
  function Popped(n: Nav): Nav
  {
    if n.stack == [] then n else Nav(n.stack[1..], Some(n.stack[0]))
  }

  /** Back undoes a navigation away from any page but the home page. */
  lemma BackUndoesNavigate(n: Nav, page: Page)
    requires n.current.Some? && n.current.value.name != HomeName
    ensures Popped(Pushed(n, page)) == n
  {
  }

  /** From the home page, Back after a navigation skips the home page: to the older history, or nowhere. */
  lemma BackSkipsHome(n: Nav, page: Page)
    requires n.current.Some? && n.current.value.name == HomeName
    ensures n.stack == [] ==> Popped(Pushed(n, page)).current == Some(page)
    ensures n.stack != [] ==> Popped(Pushed(n, page)) == Popped(n)
  {
  }

  /** Each navigation grows the history by at most one page and each Back shrinks it by one. */
  lemma HistoryDepth(n: Nav, page: Page)
    requires n.current.Some?
    ensures |Pushed(n, page).stack| == |n.stack| + (if n.current.value.name == HomeName then 0 else 1)
    ensures |Popped(n).stack| == if n.stack == [] then 0 else |n.stack| - 1
  {
  }

  /** `string.Join` with a separator string. */
  function JoinWith(parts: seq<string>, sep: string): string
  {
    if parts == [] then "" else if |parts| == 1 then parts[0] else parts[0] + sep + JoinWith(parts[1..], sep)
  }

  /** The display names of a list of pages. */
  function DisplayNames(pages: seq<Page>): (r: seq<string>)
    ensures |r| == |pages| && forall k :: 0 <= k < |pages| ==> r[k] == pages[k].displayName
  {
    seq(|pages|, k requires 0 <= k < |pages| => pages[k].displayName)
  }

  /** `UpdateBreadcrumb` as written: the history in stack order, most recent first, then the current page. */
  function Breadcrumb(stack: seq<Page>, current: Page): string
  {
    JoinWith(DisplayNames(stack) + [current.displayName], CrumbSeparator)
  }

  /** Joining a non-empty tail after a head puts the separator between them. */
  lemma JoinCons(head: string, tail: seq<string>, sep: string)
    requires tail != []
    ensures JoinWith([head] + tail, sep) == head + sep + JoinWith(tail, sep)
  {
    assert ([head] + tail)[1..] == tail;
  }

  /** Joining a non-empty list with one more part at the end puts the separator before it. */
  lemma {:induction false} JoinSnoc(parts: seq<string>, last: string, sep: string)
    requires parts != []
    ensures JoinWith(parts + [last], sep) == JoinWith(parts, sep) + sep + last
  {
    if |parts| == 1 {
      assert (parts + [last])[1..] == [last];
    } else {
      assert (parts + [last])[1..] == parts[1..] + [last];
      JoinSnoc(parts[1..], last, sep);
    }
  }

  /** As written, the page just left goes first and the older history keeps its place. */
  lemma BreadcrumbAfterNavigate(n: Nav, page: Page)
    requires n.current.Some? && n.current.value.name != HomeName
    ensures Breadcrumb(Pushed(n, page).stack, page) ==
      n.current.value.displayName + CrumbSeparator + Breadcrumb(n.stack, page)
  {
    assert DisplayNames([n.current.value] + n.stack) + [page.displayName]
      == [n.current.value.displayName] + (DisplayNames(n.stack) + [page.displayName]);
    JoinCons(n.current.value.displayName, DisplayNames(n.stack) + [page.displayName], CrumbSeparator);
  }

  /** Home, then pages A, B and C: the breadcrumb reads "B / A / C", not the path taken. */
  lemma BreadcrumbOutOfOrder()
    ensures var home := Page(HomeName, "Home");
      var a := Page("A", "A");
      var b := Page("B", "B");
      var c := Page("C", "C");
      var n := Pushed(Pushed(Pushed(Nav([], Some(home)), a), b), c);
      Breadcrumb(n.stack, n.current.value) == "B / A / C"
  {
    var home := Page(HomeName, "Home");
    var a := Page("A", "A");
    var b := Page("B", "B");
    var c := Page("C", "C");
    var n := Pushed(Pushed(Pushed(Nav([], Some(home)), a), b), c);
    assert n.stack == [b, a];
    assert DisplayNames(n.stack) + [c.displayName] == ["B", "A", "C"];
    assert JoinWith(["C"], CrumbSeparator) == "C";
    assert JoinWith(["A", "C"], CrumbSeparator) == "A / C" by {
      assert ["A", "C"][1..] == ["C"];
    }
    assert ["B", "A", "C"][1..] == ["A", "C"];
  }

  /** The breadcrumb as a path: the history oldest first, then the current page. */
  function Trail(stack: seq<Page>, current: Page): string
  {
    JoinWith(Reversed(DisplayNames(stack)) + [current.displayName], CrumbSeparator)
  }

  function Reversed(s: seq<string>): (r: seq<string>)
    ensures |r| == |s| && forall k :: 0 <= k < |s| ==> r[k] == s[|s| - 1 - k]
  {
    if s == [] then [] else Reversed(s[1..]) + [s[0]]
  }

  /** Along the path, each navigation away from a page but the home page adds the new page at the end. */
  lemma TrailAfterNavigate(n: Nav, page: Page)
    requires n.current.Some? && n.current.value.name != HomeName
    ensures Trail(Pushed(n, page).stack, page) == Trail(n.stack, n.current.value) + CrumbSeparator + page.displayName
  {
    var names := Reversed(DisplayNames(n.stack)) + [n.current.value.displayName];
    var pushed := DisplayNames([n.current.value] + n.stack);
    assert Pushed(n, page).stack == [n.current.value] + n.stack;
    assert pushed[0] == n.current.value.displayName && pushed[1..] == DisplayNames(n.stack);
    assert Reversed(pushed) == names;
    JoinSnoc(names, page.displayName, CrumbSeparator);
  }

  /** Along the path, Back removes the last page and the separator before it. */
  lemma TrailAfterBack(n: Nav)
    requires n.current.Some? && n.stack != []
    ensures Trail(n.stack, n.current.value) ==
      Trail(Popped(n).stack, Popped(n).current.value) + CrumbSeparator + n.current.value.displayName
  {
    var p := Popped(n);
    var names := Reversed(DisplayNames(p.stack)) + [p.current.value.displayName];
    assert Reversed(DisplayNames(n.stack)) == names;
    JoinSnoc(names, n.current.value.displayName, CrumbSeparator);
  }

  /** Home, then pages A, B and C: the path reads "A / B / C". */
  lemma TrailInOrder()
    ensures var home := Page(HomeName, "Home");
      var n := Pushed(Pushed(Pushed(Nav([], Some(home)), Page("A", "A")), Page("B", "B")), Page("C", "C"));
      Trail(n.stack, n.current.value) == "A / B / C"
  {
    var home := Page(HomeName, "Home");
    var a := Page("A", "A");
    var b := Page("B", "B");
    var c := Page("C", "C");
    var n1 := Pushed(Nav([], Some(home)), a);
    assert Trail(n1.stack, a) == "A";
    TrailAfterNavigate(n1, b);
    TrailAfterNavigate(Pushed(n1, b), c);
  }

  class UniversalModPanel {
    /** `_pages`. */
    var pages: map<string, Page>
    /** `_stack`, top first, and `_currentPage`. */
    var stack: seq<Page>
    var current: Option<Page>
    /** Whether the Home and Back buttons are interactable. */
    var homeInteractable: bool
    var backInteractable: bool
    /** `Breadcrumb.text`. */
    var breadcrumb: string
    /** The homepage buttons `Awake` created: their text and the page each navigates to. */
    var buttons: seq<(string, string)>

    /**
     * There is a current page whenever there is history; Back is interactable exactly when
     * there is history, and Home whenever there is.
     */
    predicate Valid()
      reads this
    {
      (stack != [] ==> current.Some?)
      && backInteractable == (stack != [])
      && (!homeInteractable ==> stack == [])
    }

    constructor ()
      ensures pages == map[] && stack == [] && current == None && buttons == [] && breadcrumb == ""
      ensures !homeInteractable && !backInteractable && Valid()
    {
      pages := map[];
      stack := [];
      current := None;
      homeInteractable := false;
      backInteractable := false;
      breadcrumb := "";
      buttons := [];
    }

    /**
     * `NavigateHome`: the history is emptied and both buttons disabled; then the page
     * named "Home" becomes current, and a panel without one throws.
     */
    method NavigateHome() returns (r: Result<(), PanelError>)
      modifies this
      ensures Valid() && stack == [] && !homeInteractable && !backInteractable
      ensures pages == old(pages) && buttons == old(buttons)
      ensures r.Err? <==> HomeName !in pages
      ensures r.Err? ==> r.error == KeyNotFound(HomeName) && current == old(current) && breadcrumb == old(breadcrumb)
      ensures r.Ok? ==> current == Some(pages[HomeName]) && breadcrumb == Breadcrumb([], pages[HomeName])
    {
      stack := [];
      homeInteractable := false;
      backInteractable := false;
      if HomeName !in pages {
        return Err(KeyNotFound(HomeName));
      }
      current := Some(pages[HomeName]);
      breadcrumb := Breadcrumb(stack, current.value);
      return Ok(());
    }

    /** `NavigateBack`: with no history nothing happens; otherwise the top of the history becomes current. */
    method NavigateBack()
      requires Valid()
      modifies this
      ensures Valid() && pages == old(pages) && buttons == old(buttons) && homeInteractable == old(homeInteractable)
      ensures Nav(stack, current) == Popped(old(Nav(stack, current)))
      ensures old(stack) == [] ==> breadcrumb == old(breadcrumb)
      ensures old(stack) != [] ==> breadcrumb == Breadcrumb(stack, current.value)
    {
      if |stack| == 0 {
        return;
      }
      current := Some(stack[0]);
      stack := stack[1..];
      if |stack| == 0 {
        backInteractable := false;
      }
      breadcrumb := Breadcrumb(stack, current.value);
    }

    /**
     * `Navigate(page)`: Home becomes interactable; with no current page this throws, and
     * otherwise the current page is pushed unless it is the home page, and `page` becomes current.
     */
    method Navigate(page: Page) returns (r: Result<(), PanelError>)
      requires Valid()
      modifies this
      ensures Valid() && homeInteractable && pages == old(pages) && buttons == old(buttons)
      ensures r.Err? <==> old(current) == None
      ensures r.Err? ==> r.error == NullReference && stack == old(stack) && current == None && breadcrumb == old(breadcrumb)
      ensures r.Ok? ==> Nav(stack, current) == Pushed(old(Nav(stack, current)), page)
      ensures r.Ok? ==> breadcrumb == Breadcrumb(stack, page)
    {
      homeInteractable := true;
      if current == None {
        return Err(NullReference);
      }
      if current.value.name != HomeName {
        stack := [current.value] + stack;
        backInteractable := true;
      }
      current := Some(page);
      breadcrumb := Breadcrumb(stack, page);
      return Ok(());
    }

    /** `Navigate(pageName)`: an unknown name throws and changes nothing; otherwise as `Navigate(page)`. */
    method NavigateTo(pageName: string) returns (r: Result<(), PanelError>)
      requires Valid()
      modifies this
      ensures Valid() && pages == old(pages) && buttons == old(buttons)
      ensures pageName !in pages ==> r == Err(InvalidOperation(pageName)) && unchanged(this)
      ensures pageName in pages && old(current).Some? ==>
        r.Ok? && Nav(stack, current) == Pushed(old(Nav(stack, current)), pages[pageName])
      ensures pageName in pages && old(current).None? ==> r == Err(NullReference)
    {
      if pageName in pages {
        r := Navigate(pages[pageName]);
      } else {
        r := Err(InvalidOperation(pageName));
      }
    }

    /** A click on the `k`-th homepage button navigates to its target page by name. */
    method ClickHomepageButton(k: nat) returns (r: Result<(), PanelError>)
      requires Valid() && k < |buttons|
      modifies this
      ensures Valid() && pages == old(pages) && buttons == old(buttons)
      ensures buttons[k].1 !in pages ==> r == Err(InvalidOperation(buttons[k].1)) && unchanged(this)
      ensures buttons[k].1 in pages && old(current).Some? ==>
        r.Ok? && Nav(stack, current) == Pushed(old(Nav(stack, current)), pages[buttons[k].1])
    {
      r := NavigateTo(buttons[k].1);
    }

    /**
     * `Awake`: the prefab's pages are added under their object names, then a copy of each
     * registered custom page under its identifier (a name taken twice throws), a button for
     * each homepage button, and the panel goes home.
     */
    method Awake(registry: Registry, serialized: seq<Page>) returns (r: Result<(), PanelError>)
      requires pages == map[]
      modifies this
      ensures pages == PanelPages(serialized, old(registry.customPages)).pages
      ensures PanelPages(serialized, old(registry.customPages)).error.Some? ==>
        r == Err(PanelPages(serialized, old(registry.customPages)).error.value)
      ensures PanelPages(serialized, old(registry.customPages)).error.None? ==>
        buttons == old(registry.homepageButtons) && Valid() && stack == [] && !homeInteractable
        && (r.Err? <==> HomeName !in pages)
        && (r.Ok? ==> current == Some(pages[HomeName]) && breadcrumb == Breadcrumb([], pages[HomeName]))
    {
      var filled := AddPages(serialized, registry.customPages);
      pages := filled.pages;
      if filled.error.Some? {
        return Err(filled.error.value);
      }
      buttons := registry.homepageButtons;
      r := NavigateHome();
    }
  }

  /** The two `foreach` loops of `Awake` that add pages, one at a time. */
  method AddPages(serialized: seq<Page>, custom: seq<(string, Page)>) returns (filled: Filled)
    ensures filled == PanelPages(serialized, custom)
  {
    var named := seq(|serialized|, k requires 0 <= k < |serialized| => (serialized[k].name, serialized[k]))
      + seq(|custom|, k requires 0 <= k < |custom| => (custom[k].0, Instance(custom[k].1)));
    var pages: map<string, Page> := map[];
    var i := 0;
    while i < |named|
      invariant 0 <= i <= |named|
      invariant AddAll(pages, named[i..]) == AddAll(map[], named)
    {
      assert named[i..][1..] == named[i + 1..];
      if named[i].0 in pages {
        return Filled(pages, Some(DuplicateKey(named[i].0)));
      }
      pages := pages[named[i].0 := named[i].1];
      i := i + 1;
    }
    assert named[i..] == [];
    return Filled(pages, None);
  }
}
