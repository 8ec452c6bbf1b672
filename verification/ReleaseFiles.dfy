/**
 A release on disk, and the checksum that compares it with what the database
 would generate now. The digest function is left out: a checksum here is the
 text it is computed from.
 */
module ReleaseFiles {
  import opened Wrappers
  import opened Sorting
  import opened ConfigRenderer
  import opened ConfigGenerator
  import GeneratorOrder
  import GeneratorLaws
  import ApplyProtocol

  datatype AppFiles = AppFiles(crsSetup: string, tuning: string)

  /** coraza/ is a directory of directories, one per application. */
  datatype ReleaseDir = ReleaseDir(haproxyCfg: string, spoaYaml: string, apps: map<string, AppFiles>)

  // --- the checksum --------------------------------------------------------

  function AppText(a: App): string {
    "\n--- " + a.name + "\n" + a.crsSetup + "\n---\n" + a.tuning
  }

  function AppsText(apps: seq<App>): string {
    if apps == [] then "" else AppsText(apps[..|apps| - 1]) + AppText(apps[|apps| - 1])
  }

  function ByName(): (App, App) -> bool {
    ByString((a: App) => a.name)
  }

  function Hashed(haproxyCfg: string, spoaYaml: string, apps: seq<App>): string {
    haproxyCfg + "\n---\n" + spoaYaml + AppsText(Sort(apps, ByName()))
  }

  function Checksum(config: Config): string {
    Hashed(config.haproxyCfg, config.spoaYaml, config.apps)
  }

  method CalculateChecksum(haproxyCfg: string, spoaYaml: string, apps: seq<App>) returns (digest: string)
    ensures digest == Hashed(haproxyCfg, spoaYaml, apps)
  {
    hide Sort;
    digest := haproxyCfg;
    digest := digest + "\n---\n";
    digest := digest + spoaYaml;
    ghost var head := digest;
    var sorted := Sort(apps, ByName());
    for n := 0 to |sorted|
      invariant digest == head + AppsText(sorted[..n])
    {
      var app := sorted[n];
      ghost var before := AppsText(sorted[..n]);
      assert AppsText(sorted[..n + 1]) == before + AppText(app) by {
        assert sorted[..n + 1][..n] == sorted[..n];
      }
      hide AppsText;
      digest := digest + "\n--- " + app.name + "\n";
      digest := digest + app.crsSetup;
      digest := digest + "\n---\n";
      digest := digest + app.tuning;
      assert digest == head + (before + AppText(app));
    }
    assert sorted[..|sorted|] == sorted;
  }

  // --- writing and reading -------------------------------------------------

  function FilesOf(a: App): AppFiles {
    AppFiles(a.crsSetup, a.tuning)
  }

  ghost predicate Wrote(dir: ReleaseDir, config: Config) {
    && dir.haproxyCfg == config.haproxyCfg && dir.spoaYaml == config.spoaYaml
    && (forall name :: name in dir.apps <==> name in AppNames(config.apps))
    && forall a :: a in config.apps ==> a.name in dir.apps && dir.apps[a.name] == FilesOf(a)
  }

  lemma WroteAll(config: Config, apps: map<string, AppFiles>)
    requires var names := AppNames(config.apps);
             && (forall name :: name in apps ==> exists i :: 0 <= i < |names| && names[i] == name)
             && forall i :: 0 <= i < |names| ==> names[i] in apps && apps[names[i]] == FilesOf(config.apps[i])
    ensures Wrote(ReleaseDir(config.haproxyCfg, config.spoaYaml, apps), config)
  {
    forall a | a in config.apps ensures a.name in apps && apps[a.name] == FilesOf(a) {
      var i :| 0 <= i < |config.apps| && config.apps[i] == a;
      assert AppNames(config.apps)[i] == a.name;
    }
  }

  /** Making a directory that exists is an error. */
  method WriteCandidate(config: Config) returns (dir: Option<ReleaseDir>)
    ensures dir.Some? <==> Unique(AppNames(config.apps))
    ensures dir.Some? ==> Wrote(dir.value, config)
  {
    hide Map, Wrote;
    var apps: map<string, AppFiles> := map[];
    ghost var names := AppNames(config.apps);
    for n := 0 to |config.apps|
      invariant forall i, j :: 0 <= i < j < n ==> names[i] != names[j]
      invariant forall name :: name in apps ==> exists i :: 0 <= i < n && names[i] == name
      invariant forall i :: 0 <= i < n ==> names[i] in apps && apps[names[i]] == FilesOf(config.apps[i])
    {
      var app := config.apps[n];
      assert names[n] == app.name;
      if app.name in apps {
        return None;
      }
      apps := apps[app.name := AppFiles(app.crsSetup, app.tuning)];
    }
    WroteAll(config, apps);
    return Some(ReleaseDir(config.haproxyCfg, config.spoaYaml, apps));
  }

  /** Reading text turns every kind of line end into a line feed. */
  function ReadText(s: string): string {
    if s == "" then ""
    else if s[0] == '\r' then "\n" + ReadText(if |s| > 1 && s[1] == '\n' then s[2..] else s[1..])
    else [s[0]] + ReadText(s[1..])
  }

  function ReadApp(dir: ReleaseDir, name: string): App {
    if name in dir.apps then App(name, ReadText(dir.apps[name].crsSetup), ReadText(dir.apps[name].tuning))
    else App(name, "", "")
  }

  /** A directory lists each of its entries once, in any order. */
  ghost predicate Lists(listing: seq<string>, dir: ReleaseDir) {
    Unique(listing) && forall name :: name in listing <==> name in dir.apps
  }

  function ReadApps(dir: ReleaseDir, listing: seq<string>): seq<App> {
    Map(listing, name => ReadApp(dir, name))
  }

  method ReadActiveChecksum(dir: ReleaseDir, listing: seq<string>) returns (digest: string)
    requires Lists(listing, dir)
    ensures digest == Hashed(ReadText(dir.haproxyCfg), ReadText(dir.spoaYaml), ReadApps(dir, listing))
  {
    var apps := [];
    for n := 0 to |listing|
      invariant apps == ReadApps(dir, listing[..n])
    {
      assert listing[n] in listing;
      assert listing[..n + 1] == listing[..n] + [listing[n]];
      var files := dir.apps[listing[n]];
      apps := apps + [App(listing[n], ReadText(files.crsSetup), ReadText(files.tuning))];
      assert apps == ReadApps(dir, listing[..n + 1]);
    }
    assert listing[..|listing|] == listing;
    digest := CalculateChecksum(ReadText(dir.haproxyCfg), ReadText(dir.spoaYaml), apps);
  }

  // --- reading back what was written ---------------------------------------

  lemma {:induction false} ReadTextIsPlain(s: string)
    ensures '\r' !in ReadText(s)
    ensures '\r' !in s ==> ReadText(s) == s
    decreases |s|
  {
    if s == "" {
    } else if s[0] == '\r' {
      ReadTextIsPlain(if |s| > 1 && s[1] == '\n' then s[2..] else s[1..]);
    } else {
      ReadTextIsPlain(s[1..]);
    }
  }

  lemma UniqueListsAreOrders<T(!new)>(s: seq<T>, t: seq<T>)
    requires Unique(s) && Unique(t) && forall x :: x in s <==> x in t
    ensures multiset(s) == multiset(t)
  {
    forall x ensures multiset(s)[x] == multiset(t)[x] {
      GeneratorLaws.UniqueCountsOnce(s, x);
      GeneratorLaws.UniqueCountsOnce(t, x);
      assert x in s <==> x in multiset(s);
      assert x in t <==> x in multiset(t);
    }
  }

  predicate PlainApp(a: App) {
    '\r' !in a.crsSetup && '\r' !in a.tuning
  }

  predicate Plain(config: Config) {
    '\r' !in config.haproxyCfg && '\r' !in config.spoaYaml && forall a :: a in config.apps ==> PlainApp(a)
  }

  predicate PlainNames(config: Config) {
    forall a :: a in config.apps ==> '\r' !in a.name
  }

  lemma AppsByTheirNames(config: Config, dir: ReleaseDir, listing: seq<string>)
    requires Unique(AppNames(config.apps)) && Wrote(dir, config) && Lists(listing, dir) && Plain(config)
    ensures multiset(ReadApps(dir, listing)) == multiset(config.apps)
  {
    var names := AppNames(config.apps);
    forall i | 0 <= i < |config.apps| ensures ReadApps(dir, names)[i] == config.apps[i] {
      var a := config.apps[i];
      assert a in config.apps;
      ReadTextIsPlain(a.crsSetup);
      ReadTextIsPlain(a.tuning);
    }
    assert ReadApps(dir, names) == config.apps;
    UniqueListsAreOrders(names, listing);
    MapIgnoresOrder(names, listing, name => ReadApp(dir, name));
  }

  lemma AppsHaveNoTies(apps: seq<App>)
    requires Unique(AppNames(apps))
    ensures IsOrder(ByName()) && NoTies(apps, ByName())
  {
    ByStringIsOrder((a: App) => a.name);
    var names := AppNames(apps);
    forall a, b | a in apps && b in apps && ByName()(a, b) && ByName()(b, a) ensures a == b {
      StringLeIsTotal(a.name, b.name);
      var i :| 0 <= i < |apps| && apps[i] == a;
      var j :| 0 <= j < |apps| && apps[j] == b;
      assert names[i] == names[j];
    }
  }

  lemma {:induction false} AppsTextHolds(apps: seq<App>, c: char)
    requires c == '\r'
    ensures c in AppsText(apps) <==> exists a :: a in apps && (c in a.name || !PlainApp(a))
  {
    if apps != [] {
      var last := |apps| - 1;
      AppsTextHolds(apps[..last], c);
      assert apps == apps[..last] + [apps[last]];
      AppTextHolds(apps[last]);
    }
  }

  lemma AppTextHolds(a: App)
    ensures '\r' in AppText(a) <==> '\r' in a.name || !PlainApp(a)
  {
    InConcat("\n--- " + a.name + "\n" + a.crsSetup + "\n---\n", a.tuning);
    InConcat("\n--- " + a.name + "\n" + a.crsSetup, "\n---\n");
    InConcat("\n--- " + a.name + "\n", a.crsSetup);
    InConcat("\n--- " + a.name, "\n");
    InConcat("\n--- ", a.name);
  }

  lemma InConcat(s: string, t: string)
    ensures '\r' in s + t <==> '\r' in s || '\r' in t
  {
  }

  lemma HashedHolds(haproxyCfg: string, spoaYaml: string, apps: seq<App>)
    ensures '\r' in Hashed(haproxyCfg, spoaYaml, apps) <==>
      '\r' in haproxyCfg || '\r' in spoaYaml || exists a :: a in apps && ('\r' in a.name || !PlainApp(a))
  {
    var sorted := Sort(apps, ByName());
    ByStringIsOrder((a: App) => a.name);
    SortIsAscending(apps, ByName());
    SameElements(apps, sorted);
    AppsTextHolds(sorted, '\r');
    hide Sort, AppsText;
    InConcat(haproxyCfg + "\n---\n" + spoaYaml, AppsText(sorted));
    InConcat(haproxyCfg + "\n---\n", spoaYaml);
    InConcat(haproxyCfg, "\n---\n");
  }

  /**
   A release read back in any directory order has the checksum it was written
   with, exactly when nothing in it is a carriage return.
   */
  lemma ReadBackChecksum(config: Config, dir: ReleaseDir, listing: seq<string>)
    requires Unique(AppNames(config.apps)) && PlainNames(config) && Wrote(dir, config) && Lists(listing, dir)
    ensures Hashed(ReadText(dir.haproxyCfg), ReadText(dir.spoaYaml), ReadApps(dir, listing)) == Checksum(config) <==> Plain(config)
  {
    if Plain(config) {
      ReadTextIsPlain(config.haproxyCfg);
      ReadTextIsPlain(config.spoaYaml);
      AppsByTheirNames(config, dir, listing);
      AppsHaveNoTies(config.apps);
      SortIgnoresOrder(config.apps, ReadApps(dir, listing), ByName());
    } else {
      ReadTextIsPlain(dir.haproxyCfg);
      ReadTextIsPlain(dir.spoaYaml);
      HashedHolds(config.haproxyCfg, config.spoaYaml, config.apps);
      HashedHolds(ReadText(dir.haproxyCfg), ReadText(dir.spoaYaml), ReadApps(dir, listing));
      ReadAppsArePlain(config, dir, listing);
    }
  }

  lemma ReadAppsArePlain(config: Config, dir: ReleaseDir, listing: seq<string>)
    requires PlainNames(config) && Wrote(dir, config) && Lists(listing, dir)
    ensures forall a :: a in ReadApps(dir, listing) ==> '\r' !in a.name && PlainApp(a)
  {
    var apps := ReadApps(dir, listing);
    forall i | 0 <= i < |apps| ensures '\r' !in apps[i].name && PlainApp(apps[i]) {
      assert listing[i] in listing;
      ReadTextIsPlain(dir.apps[listing[i]].crsSetup);
      ReadTextIsPlain(dir.apps[listing[i]].tuning);
      var k :| 0 <= k < |config.apps| && AppNames(config.apps)[k] == listing[i];
      assert config.apps[k] in config.apps;
    }
  }

  // --- drift ---------------------------------------------------------------

  lemma GeneratedNames(settings: Settings, rows: Rows)
    requires Generate(settings, rows).Some?
    ensures Unique(AppNames(Generate(settings, rows).value.apps)) && PlainNames(Generate(settings, rows).value)
  {
    GeneratorLaws.SpoaWasRendered(settings, rows);
    NamesArePlain(settings, Generate(settings, rows).value);
  }

  lemma NamesArePlain(settings: Settings, config: Config)
    requires RenderSpoa(settings.templates, AppNames(config.apps), settings.logLevel).Some?
    ensures Unique(AppNames(config.apps)) && PlainNames(config)
  {
    var names := AppNames(config.apps);
    forall i | 0 <= i < |config.apps| ensures '\r' !in config.apps[i].name {
      assert names[i] in names;
      assert MatchesToDollar(config.apps[i].name, AppNameChar);
    }
  }

  /**
   An apply from one query and a status from another, of the same rows in
   different orders, agree: no drift is shown, unless a carriage return was
   rendered.
   */
  lemma SameRowsShowNoDrift(settings: Settings, applied: Rows, queried: Rows, dir: ReleaseDir, listing: seq<string>)
    requires GeneratorOrder.SameRows(applied, queried) && GeneratorOrder.KeysHold(applied)
    requires forall p :: p in EffectivePolicies(ActiveVhosts(applied.vhosts), applied.policies) ==>
      GeneratorOrder.NoScopedTies(ExclusionsOf(applied, p.id))
    requires Generate(settings, applied).Some? && Wrote(dir, Generate(settings, applied).value) && Lists(listing, dir)
    ensures Generate(settings, queried).Some?
    ensures Plain(Generate(settings, applied).value) <==>
      Hashed(ReadText(dir.haproxyCfg), ReadText(dir.spoaYaml), ReadApps(dir, listing)) == Checksum(Generate(settings, queried).value)
  {
    GeneratorOrder.OrderDoesNotMatter(settings, applied, queried);
    GeneratedNames(settings, applied);
    ReadBackChecksum(Generate(settings, applied).value, dir, listing);
  }

  // --- what the apply protocol takes ---------------------------------------

  /** A generated configuration as the apply protocol sees it; HAProxy also names the default application. */
  function ReleaseOf(config: Config, routes: seq<Route>, tree: int): ApplyProtocol.Release {
    ApplyProtocol.Release(
      set name | name in AppNames(config.apps),
      {DEFAULT_APP} + set route | route in routes :: route.wafApp, tree)
  }

  lemma GeneratedIsWhatApplyTakes(settings: Settings, rows: Rows, tree: int)
    requires Generate(settings, rows).Some?
    ensures ApplyProtocol.Generated(ReleaseOf(Generate(settings, rows).value, Routes(settings, rows).value, tree))
  {
    GeneratorLaws.RoutesStayWithinApps(settings, rows);
  }
}
