/**
 A two-package workspace: `pkgA/package.json` declares `build` (`tsc`) and
 `pkgB/package.json` declares `test` (`jest`), both under the root `/w`.
 */
module Scenarios {
  import opened Seqs
  import opened Scanner
  import opened ScriptIds
  import opened ScriptTree

  const Root: string := "/w"
  const PathA: string := Root + "/" + "pkgA" + "/package.json"
  const PathB: string := Root + "/" + "pkgB" + "/package.json"
  const LabelA: string := "pkgA" + "/package.json"
  const LabelB: string := "pkgB" + "/package.json"

  function Workspace(): Listing {
    Entries([
      Dir("pkgA", Entries([File("package.json", Scripts([("build", "tsc")]))])),
      Dir("node_modules", Entries([Dir("dep", Entries([File("package.json", Scripts([("x", "y")]))]))])),
      Dir("pkgB", Entries([File("package.json", Scripts([("test", "jest")]))]))
    ])
  }

  function PackageDir(dir: string, script: (string, string)): Node {
    Dir(dir, Entries([File("package.json", Scripts([script]))]))
  }

  const ManifestA: Found := Found(["pkgA", "package.json"], Scripts([("build", "tsc")]))
  const ManifestB: Found := Found(["pkgB", "package.json"], Scripts([("test", "jest")]))

  /** A package directory directly under the root yields its one manifest. */
  lemma ScanPackageDir(dir: string, script: (string, string))
    requires !Skipped(dir)
    ensures ScanNode([], PackageDir(dir, script)) == [Found([dir, "package.json"], Scripts([script]))]
  {
    var inner := [File("package.json", Scripts([script]))];
    assert [] + [dir] == [dir];
    assert [dir] + ["package.json"] == [dir, "package.json"];
    assert ScanEntries([dir], inner[1..]) == [];
    assert ScanNode([dir], inner[0]) == [Found([dir, "package.json"], Scripts([script]))];
    assert ScanEntries([dir], inner) == [Found([dir, "package.json"], Scripts([script]))];
  }

  /** Nothing under `node_modules` is scanned. */
  lemma ScanSkipsDependencies()
    ensures ScanNode([], Workspace().entries[1]) == []
  {
  }

  /** The scan finds both manifests in listing order and nothing under `node_modules`. */
  lemma ScanFindsBothPackages()
    ensures Scan(Workspace()) == [ManifestA, ManifestB]
  {
    var es := Workspace().entries;
    ScanPackageDir("pkgA", ("build", "tsc"));
    ScanPackageDir("pkgB", ("test", "jest"));
    ScanSkipsDependencies();
    assert es[2..][1..] == [];
    assert ScanEntries([], es[2..]) == [ManifestB];
    assert es[1..][1..] == es[2..];
    assert ScanEntries([], es[1..]) == [ManifestB];
  }

  /** The absolute path and the heading label of a package directory's manifest. */
  lemma PackagePaths(dir: string)
    ensures PathOf(Root, [dir, "package.json"]) == Root + "/" + dir + "/package.json"
    ensures RelativePath([dir, "package.json"]) == dir + "/package.json"
  {
    var segs := [dir, "package.json"];
    assert segs[..1] == [dir];
    assert segs[..1][..0] == [];
    assert PathOf(Root, [dir]) == Root + "/" + dir;
    assert RelativePath([dir]) == dir;
    assert "/" + "package.json" == "/package.json";
    assert PathOf(Root, segs) == (Root + "/" + dir) + "/" + "package.json";
    assert RelativePath(segs) == dir + "/" + "package.json";
  }

  /** A manifest with one script yields that one script item. */
  lemma OneScript(path: string, name: string, command: string, favs: seq<string>)
    ensures ManifestScripts(path, Scripts([(name, command)]), favs) == [Script(name, command, path, ScriptId(path, name) in favs)]
  {
    var r := ScriptsOf(path, [(name, command)], favs);
    assert |r| == 1;
  }

  /** The two scripts of the workspace, each tagged by the favourites list. */
  lemma WorkspaceScripts(favs: seq<string>)
    ensures AllScripts(Root, [ManifestA, ManifestB], favs) == [
      Script("build", "tsc", PathA, ScriptId(PathA, "build") in favs),
      Script("test", "jest", PathB, ScriptId(PathB, "test") in favs)]
  {
    PackagePaths("pkgA");
    PackagePaths("pkgB");
    OneScript(PathA, "build", "tsc", favs);
    OneScript(PathB, "test", "jest", favs);
    var found := [ManifestA, ManifestB];
    assert found[1..] == [ManifestB] && found[1..][1..] == [];
    assert AllScripts(Root, found[1..], favs) == [Script("test", "jest", PathB, ScriptId(PathB, "test") in favs)];
  }

  /** The file headings of the workspace. */
  lemma WorkspaceHeadings()
    ensures FileHeadings(Root, [ManifestA, ManifestB]) == [
      FileHeading(LabelA, PathA),
      FileHeading(LabelB, PathB)]
  {
    PackagePaths("pkgA");
    PackagePaths("pkgB");
  }

  /** The root of the workspace, in terms of the two manifests the scan finds. */
  lemma ScenarioChildren(favs: seq<string>, recents: seq<string>)
    ensures var all := AllScripts(Root, [ManifestA, ManifestB], favs);
      Children(Some(Root), Workspace(), favs, recents)
        == RootItems(FavouriteItems(all, favs), RecentItems(all, recents, favs), FileHeadings(Root, [ManifestA, ManifestB]))
  {
    ScanFindsBothPackages();
  }

  /** The root level with `build` pinned and `test` recent, before the given headings. */
  lemma RootScenario(headings: seq<TreeItem>)
    ensures RootItems([Build], [Test], headings) ==
      [SectionHeading(FavouritesLabel), ScriptLeaf(Build), SectionHeading(RecentsLabel), ScriptLeaf(Test)] + headings
  {
    assert Section(FavouritesLabel, [Build]) == [SectionHeading(FavouritesLabel), ScriptLeaf(Build)];
    assert Section(RecentsLabel, [Test]) == [SectionHeading(RecentsLabel), ScriptLeaf(Test)];
  }

  /** With nothing pinned or run, the root holds just the two file headings. */
  lemma InitialTree()
    ensures Children(Some(Root), Workspace(), [], []) == [
      FileHeading(LabelA, PathA),
      FileHeading(LabelB, PathB)]
  {
    ScenarioChildren([], []);
    WorkspaceHeadings();
    var all := AllScripts(Root, [ManifestA, ManifestB], []);
    NoFavourites(all);
    assert RecentItems(all, [], []) == [];
    var headings := FileHeadings(Root, [ManifestA, ManifestB]);
    assert RootItems([], [], headings) == headings by {
      assert Section(FavouritesLabel, []) == [] && Section(RecentsLabel, []) == [];
    }
  }

  /** With no favourites the Favourites section is empty. */
  lemma {:induction false} NoFavourites(all: seq<Script>)
    ensures FavouriteItems(all, []) == []
    decreases |all|
  {
    if all != [] {
      NoFavourites(all[1..]);
    }
  }

  /** The identifier of a script whose manifest no longer exists. */
  const StaleId: string := ScriptId(Root + "/" + "pkgC" + "/package.json", "lint")

  const Build: Script := Script("build", "tsc", PathA, true)
  const Test: Script := Script("test", "jest", PathB, false)

  /** The three identifiers of the scenario differ (at the package letter). */
  lemma ScenarioIdsDistinct()
    ensures Build.Id() != Test.Id() && Build.Id() != StaleId && Test.Id() != StaleId
  {
    assert Build.Id()[6] == 'A' && Test.Id()[6] == 'B' && StaleId[6] == 'C';
  }

  /** Only `build` is pinned, so the Favourites section is `build` alone. */
  lemma ScenarioFavourites()
    ensures FavouriteItems([Build, Test], [Build.Id()]) == [Build]
  {
    ScenarioIdsDistinct();
    var all := [Build, Test];
    assert all[1..] == [Test] && all[1..][1..] == [];
  }

  /** The stale identifier is dropped and `test` is kept. */
  lemma ScenarioRecents()
    ensures RecentItems([Build, Test], [StaleId, Test.Id()], [Build.Id()]) == [Test]
  {
    ScenarioIdsDistinct();
    var all := [Build, Test];
    var recents := [StaleId, Test.Id()];
    assert FindIndex(all, StaleId, 0) == None;
    assert FindIndex(all, Test.Id(), 0) == Some(1);
    assert recents[1..] == [Test.Id()] && recents[1..][1..] == [];
    assert RecentItems(all, recents[1..], [Build.Id()]) == [Test];
  }

  /**
   Pinning `build` adds a Favourites section holding only `build`; a recent
   `test` run shows under Recents; a recent identifier of a deleted manifest
   is silently dropped.
   */
  lemma FavouriteAndRecentTree()
    ensures Children(Some(Root), Workspace(), [Build.Id()], [StaleId, Test.Id()]) == [
      SectionHeading(FavouritesLabel),
      ScriptLeaf(Build),
      SectionHeading(RecentsLabel),
      ScriptLeaf(Test),
      FileHeading(LabelA, PathA),
      FileHeading(LabelB, PathB)]
  {
    var favs := [Build.Id()];
    ScenarioChildren(favs, [StaleId, Test.Id()]);
    WorkspaceScripts(favs);
    WorkspaceHeadings();
    ScenarioIdsDistinct();
    ScenarioFavourites();
    ScenarioRecents();
    var all := AllScripts(Root, [ManifestA, ManifestB], favs);
    var headings := [FileHeading(LabelA, PathA), FileHeading(LabelB, PathB)];
    assert all == [Build, Test];
    assert FavouriteItems(all, favs) == [Build];
    assert RecentItems(all, [StaleId, Test.Id()], favs) == [Test];
    assert FileHeadings(Root, [ManifestA, ManifestB]) == headings;
    RootScenario(headings);
    var r := Children(Some(Root), Workspace(), favs, [StaleId, Test.Id()]);
    assert r == RootItems([Build], [Test], headings);
    assert r == [SectionHeading(FavouritesLabel), ScriptLeaf(Build), SectionHeading(RecentsLabel), ScriptLeaf(Test)] + headings;
    SixItems(SectionHeading(FavouritesLabel), ScriptLeaf(Build), SectionHeading(RecentsLabel), ScriptLeaf(Test),
      FileHeading(LabelA, PathA), FileHeading(LabelB, PathB));
  }

  /** Concatenating a four-item and a two-item list. */
  lemma SixItems<T>(a: T, b: T, c: T, d: T, e: T, f: T)
    ensures [a, b, c, d] + [e, f] == [a, b, c, d, e, f]
  {
  }
}
