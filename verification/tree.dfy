/**
 The tree view's read model, rebuilt on every query: the current scripts of
 every manifest the scan found, the Favourites and Recents sections drawn from
 them, and the root level that puts the two sections before one heading per
 manifest file.
 */
module ScriptTree {
  import opened Seqs
  import opened ScriptIds
  import opened Scanner

  /** A script item: its name (the tree label), its command, its manifest's path, the favourite mark. */
  datatype Script = Script(name: string, command: string, filePath: string, favourite: bool) {
    /** The join key with the persisted lists. */
    function Id(): string {
      ScriptId(filePath, name)
    }
  }

  /** A node of the tree: a section heading, a manifest heading or a script leaf. */
  datatype TreeItem =
    | SectionHeading(title: string)
    | FileHeading(title: string, filePath: string)
    | ScriptLeaf(script: Script)

  const FavouritesLabel: string := "Favourites"
  const RecentsLabel: string := "Recents"

  /** The absolute path of a manifest below the workspace root, separators written as `/`. */
  function PathOf(root: string, segments: seq<string>): string
    decreases |segments|
  {
    if segments == [] then root
    else PathOf(root, segments[..|segments| - 1]) + "/" + segments[|segments| - 1]
  }

  /** A manifest's path relative to the workspace root: its segments joined by `/`. */
  function RelativePath(segments: seq<string>): string
    decreases |segments|
  {
    if |segments| <= 1 then (if segments == [] then "" else segments[0])
    else RelativePath(segments[..|segments| - 1]) + "/" + segments[|segments| - 1]
  }

  /** The heading label and the absolute path agree: the absolute path is the root, `/`, and the relative path. */
  lemma {:induction false} PathOfIsRootAndRelative(root: string, segments: seq<string>)
    requires segments != []
    ensures PathOf(root, segments) == root + "/" + RelativePath(segments)
    decreases |segments|
  {
    if |segments| > 1 {
      var init := segments[..|segments| - 1];
      PathOfIsRootAndRelative(root, init);
    } else {
      assert segments[..0] == [];
    }
  }

  /** The identifiers of a list of scripts, in order. */
  function Ids(scripts: seq<Script>): (r: seq<string>)
    ensures |r| == |scripts|
    ensures forall k :: 0 <= k < |r| ==> r[k] == scripts[k].Id()
  {
    seq(|scripts|, k requires 0 <= k < |scripts| => scripts[k].Id())
  }

  /** Some script of the list has this identifier. */
  predicate HasScript(scripts: seq<Script>, id: string) {
    exists s :: s in scripts && s.Id() == id
  }

  /** The scripts of one manifest's `scripts` entries, tagged as favourite when their identifier is one. */
  function ScriptsOf(path: string, entries: seq<(string, string)>, favs: seq<string>): (r: seq<Script>)
    ensures |r| == |entries|
    ensures forall k :: 0 <= k < |r| ==>
      && r[k].name == entries[k].0
      && r[k].command == entries[k].1
      && r[k].filePath == path
      && r[k].Id() == ScriptId(path, entries[k].0)
      && (r[k].favourite <==> r[k].Id() in favs)
  {
    seq(|entries|, k requires 0 <= k < |entries| =>
      Script(entries[k].0, entries[k].1, path, ScriptId(path, entries[k].0) in favs))
  }

  /** A manifest that fails to parse or has no `scripts` contributes nothing. */
  function ManifestScripts(path: string, content: Content, favs: seq<string>): (r: seq<Script>)
    ensures content.Scripts? ==> r == ScriptsOf(path, content.entries, favs)
    ensures !content.Scripts? ==> r == []
  {
    match content
    case Scripts(entries) => ScriptsOf(path, entries, favs)
    case _ => []
  }

  /** The scripts declared in one manifest have distinct identifiers when their names are distinct. */
  lemma ManifestIdsDistinct(path: string, entries: seq<(string, string)>, favs: seq<string>)
    requires forall i, j :: 0 <= i < j < |entries| ==> entries[i].0 != entries[j].0
    ensures NoDuplicates(Ids(ScriptsOf(path, entries, favs)))
  {
    var ids := Ids(ScriptsOf(path, entries, favs));
    forall i, j | 0 <= i < j < |ids|
      ensures ids[i] != ids[j]
    {
      if ids[i] == ids[j] {
        SamePathScriptIdInjective(path, entries[i].0, entries[j].0);
      }
    }
  }

  /** Every script of every found manifest, manifests in scan order, scripts in declaration order. */
  function AllScripts(root: string, found: seq<Found>, favs: seq<string>): (r: seq<Script>)
    ensures Tagged(r, favs)
    ensures forall s :: s in r ==> exists f :: f in found && s.filePath == PathOf(root, f.segments)
    decreases |found|
  {
    if found == [] then []
    else
      var first := ManifestScripts(PathOf(root, found[0].segments), found[0].content, favs);
      var rest := AllScripts(root, found[1..], favs);
      assert forall s :: s in rest ==> exists f :: f in found && s.filePath == PathOf(root, f.segments) by {
        forall s | s in rest
          ensures exists f :: f in found && s.filePath == PathOf(root, f.segments)
        {
          var f :| f in found[1..] && s.filePath == PathOf(root, f.segments);
          assert f in found;
        }
      }
      ManifestScriptsTagged(PathOf(root, found[0].segments), found[0].content, favs);
      first + rest
  }

  /** Every script of one manifest lies in that manifest and is tagged by the favourites list. */
  lemma ManifestScriptsTagged(path: string, content: Content, favs: seq<string>)
    ensures forall s :: s in ManifestScripts(path, content, favs) ==> s.filePath == path && (s.favourite <==> s.Id() in favs)
  {
    var r := ManifestScripts(path, content, favs);
    forall s | s in r
      ensures s.filePath == path && (s.favourite <==> s.Id() in favs)
    {
      var k :| 0 <= k < |r| && r[k] == s;
    }
  }

  /** A scan that found one manifest lists exactly that manifest's scripts. */
  lemma AllScriptsOne(root: string, f: Found, favs: seq<string>)
    ensures AllScripts(root, [f], favs) == ManifestScripts(PathOf(root, f.segments), f.content, favs)
  {
    assert [f][1..] == [];
  }

  /** Some scanned manifest declares this script item. */
  predicate DeclaredBy(root: string, found: seq<Found>, favs: seq<string>, s: Script) {
    exists k :: 0 <= k < |found| && s in ManifestScripts(PathOf(root, found[k].segments), found[k].content, favs)
  }

  /** A script item is in the flat list exactly when some scanned manifest declares it. */
  lemma {:induction false} AllScriptsMembers(root: string, found: seq<Found>, favs: seq<string>, s: Script)
    ensures s in AllScripts(root, found, favs) <==> DeclaredBy(root, found, favs, s)
    decreases |found|
  {
    if found != [] {
      AllScriptsMembers(root, found[1..], favs, s);
      var first := ManifestScripts(PathOf(root, found[0].segments), found[0].content, favs);
      var rest := AllScripts(root, found[1..], favs);
      assert AllScripts(root, found, favs) == first + rest;
      if s in rest {
        var k :| 0 <= k < |found[1..]| && s in ManifestScripts(PathOf(root, found[1..][k].segments), found[1..][k].content, favs);
        assert found[1..][k] == found[k + 1];
      }
      if exists k :: 0 <= k < |found| && s in ManifestScripts(PathOf(root, found[k].segments), found[k].content, favs) {
        var k :| 0 <= k < |found| && s in ManifestScripts(PathOf(root, found[k].segments), found[k].content, favs);
        if k > 0 {
          assert found[1..][k - 1] == found[k];
        }
      }
    }
  }

  /** The scripts of every manifest are present, in manifest order. */
  lemma {:induction false} AllScriptsAppend(root: string, a: seq<Found>, b: seq<Found>, favs: seq<string>)
    ensures AllScripts(root, a + b, favs) == AllScripts(root, a, favs) + AllScripts(root, b, favs)
    decreases |a|
  {
    if a == [] {
      assert a + b == b;
    } else {
      assert (a + b)[0] == a[0];
      assert (a + b)[1..] == a[1..] + b;
      AllScriptsAppend(root, a[1..], b, favs);
    }
  }

  /** The Favourites section: the current scripts whose identifier is a favourite, marked favourite. */
  function FavouriteItems(all: seq<Script>, favs: seq<string>): (r: seq<Script>)
    ensures |r| <= |all|
    ensures forall s :: s in r ==> s.favourite && s.Id() in favs
    ensures forall s :: s in r ==> s.(favourite := false) in all || s in all
    ensures forall t :: t in all && t.Id() in favs ==> t.(favourite := true) in r
    decreases |all|
  {
    if all == [] then []
    else
      var rest := FavouriteItems(all[1..], favs);
      assert forall t :: t in all[1..] ==> t in all;
      if all[0].Id() in favs then [all[0].(favourite := true)] + rest else rest
  }

  /** Scripts whose favourite mark agrees with the favourites list, as the scan produces them. */
  ghost predicate Tagged(all: seq<Script>, favs: seq<string>) {
    forall s :: s in all ==> (s.favourite <==> s.Id() in favs)
  }

  /**
   On correctly tagged scripts the Favourites section is exactly the favourite
   scripts in scan order: a subsequence of the scripts holding every favourite one.
   */
  lemma {:induction false} FavouriteItemsInScanOrder(all: seq<Script>, favs: seq<string>)
    requires Tagged(all, favs)
    ensures IsSubsequence(FavouriteItems(all, favs), all)
    ensures forall s :: s in FavouriteItems(all, favs) <==> s in all && s.Id() in favs
    decreases |all|
  {
    if all != [] {
      assert Tagged(all[1..], favs) by {
        forall s | s in all[1..]
          ensures s.favourite <==> s.Id() in favs
        {
          assert s in all;
        }
      }
      FavouriteItemsInScanOrder(all[1..], favs);
      var rest := FavouriteItems(all[1..], favs);
      if all[0].Id() in favs {
        assert all[0].(favourite := true) == all[0];
        assert FavouriteItems(all, favs) == [all[0]] + rest;
      } else {
        if rest != [] {
          assert rest[0] != all[0];
        }
        SubsequenceOfTail(rest, all);
      }
    }
  }

  /** The index of the first script at or after `from` with this identifier, if any. */
  function FindIndex(all: seq<Script>, id: string, from: nat): (r: Option<nat>)
    requires from <= |all|
    ensures r.Some? ==> from <= r.value < |all| && all[r.value].Id() == id
    ensures r.Some? ==> forall j :: from <= j < r.value ==> all[j].Id() != id
    ensures r.None? ==> forall j :: from <= j < |all| ==> all[j].Id() != id
    decreases |all| - from
  {
    if from == |all| then None
    else if all[from].Id() == id then Some(from)
    else FindIndex(all, id, from + 1)
  }

  /** The first script with this identifier, if any: as the array `find` at src/extension.ts:131 returns it. */
  function FindScript(all: seq<Script>, id: string): (r: Option<Script>)
    ensures r.Some? ==> r.value in all && r.value.Id() == id
    ensures r.Some? ==> exists k :: 0 <= k < |all| && all[k] == r.value && forall j :: 0 <= j < k ==> all[j].Id() != id
    ensures r.None? <==> !HasScript(all, id)
  {
    match FindIndex(all, id, 0)
    case None => None
    case Some(k) => Some(all[k])
  }

  /**
   The Recents section: the recents list in order, skipping favourites and
   identifiers that no current script has.
   */
  function RecentItems(all: seq<Script>, recents: seq<string>, favs: seq<string>): (r: seq<Script>)
    ensures |r| <= |recents|
    ensures forall s :: s in r ==> s in all && s.Id() in recents && s.Id() !in favs
    ensures IsSubsequence(Ids(r), recents)
    ensures forall id :: id in recents && id !in favs && HasScript(all, id) ==> HasScript(r, id)
    decreases |recents|
  {
    if recents == [] then []
    else
      var rest := RecentItems(all, recents[1..], favs);
      RecentStepSound(all, recents, favs, rest);
      RecentStepComplete(all, recents, favs, rest);
      RecentStep(all, recents[0], favs, rest)
  }

  /** One identifier of the recents walk: kept when it is no favourite and names a current script. */
  function RecentStep(all: seq<Script>, id: string, favs: seq<string>, rest: seq<Script>): seq<Script> {
    if id in favs then rest
    else match FindScript(all, id)
      case None => rest
      case Some(s) => [s] + rest
  }

  /** One step of the recents walk keeps only current, non-favourite scripts, in recents order. */
  lemma RecentStepSound(all: seq<Script>, recents: seq<string>, favs: seq<string>, rest: seq<Script>)
    requires recents != []
    requires |rest| <= |recents| - 1
    requires forall s :: s in rest ==> s in all && s.Id() in recents[1..] && s.Id() !in favs
    requires IsSubsequence(Ids(rest), recents[1..])
    ensures var r := RecentStep(all, recents[0], favs, rest);
      && |r| <= |recents|
      && (forall s :: s in r ==> s in all && s.Id() in recents && s.Id() !in favs)
      && IsSubsequence(Ids(r), recents)
  {
    var id := recents[0];
    if id !in favs && FindScript(all, id).Some? {
      RecentStepKeep(all, recents, favs, rest, FindScript(all, id).value);
    } else {
      RecentStepSkip(all, recents, favs, rest);
    }
  }

  /** A skipped identifier leaves the walk's result sound for the longer recents list. */
  lemma RecentStepSkip(all: seq<Script>, recents: seq<string>, favs: seq<string>, rest: seq<Script>)
    requires recents != []
    requires forall s :: s in rest ==> s in all && s.Id() in recents[1..] && s.Id() !in favs
    requires IsSubsequence(Ids(rest), recents[1..])
    ensures forall s :: s in rest ==> s in all && s.Id() in recents && s.Id() !in favs
    ensures IsSubsequence(Ids(rest), recents)
  {
    forall s | s in rest
      ensures s.Id() in recents
    {
      InTail(recents, s.Id());
    }
    SubsequenceOfTail(Ids(rest), recents);
  }

  /** A kept script goes in front, matching the identifier at the front of the recents list. */
  lemma RecentStepKeep(all: seq<Script>, recents: seq<string>, favs: seq<string>, rest: seq<Script>, s: Script)
    requires recents != []
    requires s in all && s.Id() == recents[0] && s.Id() !in favs
    requires forall t :: t in rest ==> t in all && t.Id() in recents[1..] && t.Id() !in favs
    requires IsSubsequence(Ids(rest), recents[1..])
    ensures forall t :: t in [s] + rest ==> t in all && t.Id() in recents && t.Id() !in favs
    ensures IsSubsequence(Ids([s] + rest), recents)
  {
    KeepInOrder(recents, rest, s);
    forall t | t in [s] + rest
      ensures t in all && t.Id() in recents && t.Id() !in favs
    {
      if t != s {
        assert t in rest;
        InTail(recents, t.Id());
      }
    }
  }

  /** Putting the script of the front identifier before a subsequence of the tail gives a subsequence. */
  lemma KeepInOrder(recents: seq<string>, rest: seq<Script>, s: Script)
    requires recents != [] && s.Id() == recents[0]
    requires IsSubsequence(Ids(rest), recents[1..])
    ensures IsSubsequence(Ids([s] + rest), recents)
  {
    IdsCons(s, rest);
    var ids := Ids([s] + rest);
    assert ids[0] == recents[0] && ids[1..] == Ids(rest);
  }

  /** The identifiers of a script put in front of a list. */
  lemma IdsCons(s: Script, rest: seq<Script>)
    ensures Ids([s] + rest) == [s.Id()] + Ids(rest)
  {
    var l := [s] + rest;
    var m := [s.Id()] + Ids(rest);
    assert |Ids(l)| == |m|;
    forall k | 0 <= k < |l|
      ensures Ids(l)[k] == m[k]
    {
      if k > 0 {
        assert l[k] == rest[k - 1];
      }
    }
  }

  /** An element of the tail is an element of the list. */
  lemma InTail(xs: seq<string>, x: string)
    requires xs != [] && x in xs[1..]
    ensures x in xs
  {
    var i :| 0 <= i < |xs[1..]| && xs[1..][i] == x;
    assert xs[i + 1] == x;
  }

  /** One step of the recents walk keeps every non-favourite recent identifier that names a current script. */
  lemma RecentStepComplete(all: seq<Script>, recents: seq<string>, favs: seq<string>, rest: seq<Script>)
    requires recents != []
    requires forall id :: id in recents[1..] && id !in favs && HasScript(all, id) ==> HasScript(rest, id)
    ensures forall id :: id in recents && id !in favs && HasScript(all, id) ==> HasScript(RecentStep(all, recents[0], favs, rest), id)
  {
    var r := RecentStep(all, recents[0], favs, rest);
    forall x | x in recents && x !in favs && HasScript(all, x)
      ensures HasScript(r, x)
    {
      assert recents == [recents[0]] + recents[1..];
      if x == recents[0] {
        var s := FindScript(all, x).value;
        assert r[0] == s && r[0] in r;
      } else {
        assert x in recents[1..];
        var t :| t in rest && t.Id() == x;
        assert forall u :: u in rest ==> u in r;
        assert t in r;
      }
    }
  }

  /** One heading per found manifest, labelled with its path relative to the root. */
  function FileHeadings(root: string, found: seq<Found>): (r: seq<TreeItem>)
    ensures |r| == |found|
    ensures forall k :: 0 <= k < |r| ==>
      r[k] == FileHeading(RelativePath(found[k].segments), PathOf(root, found[k].segments))
  {
    seq(|found|, k requires 0 <= k < |found| =>
      FileHeading(RelativePath(found[k].segments), PathOf(root, found[k].segments)))
  }

  /** Script leaves, in order. */
  function Leaves(scripts: seq<Script>): (r: seq<TreeItem>)
    ensures |r| == |scripts|
    ensures forall k :: 0 <= k < |r| ==> r[k] == ScriptLeaf(scripts[k])
  {
    seq(|scripts|, k requires 0 <= k < |scripts| => ScriptLeaf(scripts[k]))
  }

  /** A heading and its items when there are items, nothing otherwise. */
  function Section(heading: string, items: seq<Script>): (r: seq<TreeItem>)
    ensures items == [] ==> r == []
    ensures items != [] ==> |r| == |items| + 1 && r[0] == SectionHeading(heading) && r[1..] == Leaves(items)
  {
    if |items| > 0 then [SectionHeading(heading)] + Leaves(items) else []
  }

  /** The root level: the Favourites section, the Recents section, then the manifest headings. */
  function RootItems(favourites: seq<Script>, recents: seq<Script>, headings: seq<TreeItem>): (r: seq<TreeItem>)
    ensures |r| == |Section(FavouritesLabel, favourites)| + |Section(RecentsLabel, recents)| + |headings|
    ensures r[..|Section(FavouritesLabel, favourites)|] == Section(FavouritesLabel, favourites)
    ensures r[|Section(FavouritesLabel, favourites)|..|r| - |headings|] == Section(RecentsLabel, recents)
    ensures r[|r| - |headings|..] == headings
    ensures favourites != [] ==> r[0] == SectionHeading(FavouritesLabel)
    ensures favourites == [] && recents != [] ==> r[0] == SectionHeading(RecentsLabel)
    ensures forall k :: 0 <= k < |r| - |headings| ==> !r[k].FileHeading?
  {
    var fs := Section(FavouritesLabel, favourites);
    var rs := Section(RecentsLabel, recents);
    ThreeParts(fs, rs, headings);
    SectionItemsNotFileHeadings(FavouritesLabel, favourites);
    SectionItemsNotFileHeadings(RecentsLabel, recents);
    fs + rs + headings
  }

  /** The three parts of a concatenation can be sliced back out. */
  lemma ThreeParts<T>(a: seq<T>, b: seq<T>, c: seq<T>)
    ensures (a + b + c)[..|a|] == a
    ensures (a + b + c)[|a|..|a| + |b|] == b
    ensures (a + b + c)[|a| + |b|..] == c
    ensures forall k :: 0 <= k < |a| ==> (a + b + c)[k] == a[k]
    ensures forall k :: 0 <= k < |b| ==> (a + b + c)[|a| + k] == b[k]
  {
  }

  /** No item of a section, by index, is a manifest heading. */
  lemma SectionItemsNotFileHeadings(heading: string, items: seq<Script>)
    ensures forall k :: 0 <= k < |Section(heading, items)| ==> !Section(heading, items)[k].FileHeading?
  {
  }

  /** A workspace folder is open: the extension's truthiness test, so an empty path counts as none. */
  predicate HasWorkspace(workspace: Option<string>) {
    workspace.Some? && workspace.value != ""
  }

  /**
   The children of the tree's root. With no workspace folder there are none.
   Otherwise the root shows a Favourites heading exactly when some current
   script is a favourite, a Recents heading exactly when some non-favourite
   recent identifier still names a current script, and one heading per
   manifest the scan found, in scan order. The Favourites section comes
   first, then the Recents section, then the headings.
   */
  function Children(workspace: Option<string>, tree: Listing, favs: seq<string>, recents: seq<string>): (r: seq<TreeItem>)
    ensures !HasWorkspace(workspace) ==> r == []
    ensures HasWorkspace(workspace) ==> var all := AllScripts(workspace.value, Scan(tree), favs);
      && (HasSection(r, FavouritesLabel) <==> exists s :: s in all && s.Id() in favs)
      && (HasSection(r, RecentsLabel) <==> exists id :: id in recents && id !in favs && HasScript(all, id))
      && FileHeadingsIn(r) == FileHeadings(workspace.value, Scan(tree))
    ensures HasWorkspace(workspace) ==> var all := AllScripts(workspace.value, Scan(tree), favs);
      var favSection := Section(FavouritesLabel, FavouriteItems(all, favs));
      var recentSection := Section(RecentsLabel, RecentItems(all, recents, favs));
      && |r| == |favSection| + |recentSection| + |Scan(tree)|
      && r[..|favSection|] == favSection
      && r[|favSection|..|favSection| + |recentSection|] == recentSection
      && r[|favSection| + |recentSection|..] == FileHeadings(workspace.value, Scan(tree))
  {
    if !HasWorkspace(workspace) then []
    else
      var root := workspace.value;
      var found := Scan(tree);
      var all := AllScripts(root, found, favs);
      var favourites := FavouriteItems(all, favs);
      var recentItems := RecentItems(all, recents, favs);
      var headings := FileHeadings(root, found);
      RootItemsSections(favourites, recentItems, headings);
      FavouritesShown(all, favs);
      RecentsShown(all, recents, favs);
      RootItems(favourites, recentItems, headings)
  }

  /**
   The children of a non-root node: a manifest heading lists the scripts of
   its file, given what reading that file now yields, tagged by the favourites
   list; section headings and script leaves have none.
   */
  function ItemChildren(workspace: Option<string>, item: TreeItem, content: Content, favs: seq<string>): (r: seq<TreeItem>)
    ensures !HasWorkspace(workspace) || !item.FileHeading? ==> r == []
    ensures HasWorkspace(workspace) && item.FileHeading? && !content.Scripts? ==> r == []
    ensures HasWorkspace(workspace) && item.FileHeading? && content.Scripts? ==>
      && |r| == |content.entries|
      && forall k :: 0 <= k < |r| ==>
        && r[k].ScriptLeaf?
        && r[k].script.name == content.entries[k].0
        && r[k].script.command == content.entries[k].1
        && r[k].script.Id() == ScriptId(item.filePath, content.entries[k].0)
        && (r[k].script.favourite <==> r[k].script.Id() in favs)
  {
    if !HasWorkspace(workspace) then []
    else match item
      case FileHeading(_, path) => Leaves(ManifestScripts(path, content, favs))
      case _ => []
  }

  /** A manifest heading's children are the leaves of the scripts its manifest declares. */
  lemma HeadingChildren(root: string, found: seq<Found>, favs: seq<string>, k: nat)
    requires root != ""
    requires k < |found|
    ensures ItemChildren(Some(root), FileHeadings(root, found)[k], found[k].content, favs)
      == Leaves(ManifestScripts(PathOf(root, found[k].segments), found[k].content, favs))
  {
  }

  /** Every script item a manifest heading lists is also in the flat list of all scripts. */
  lemma {:induction false} ManifestScriptsInAllScripts(root: string, found: seq<Found>, favs: seq<string>, k: nat)
    requires k < |found|
    ensures forall s :: s in ManifestScripts(PathOf(root, found[k].segments), found[k].content, favs) ==> s in AllScripts(root, found, favs)
    decreases k
  {
    var first := ManifestScripts(PathOf(root, found[0].segments), found[0].content, favs);
    var rest := AllScripts(root, found[1..], favs);
    assert AllScripts(root, found, favs) == first + rest;
    var mine := ManifestScripts(PathOf(root, found[k].segments), found[k].content, favs);
    if k > 0 {
      ManifestScriptsInAllScripts(root, found[1..], favs, k - 1);
      assert found[1..][k - 1] == found[k];
      assert forall s :: s in mine ==> s in rest;
    }
    assert forall s :: s in mine ==> s in first + rest;
  }

  /** A section heading with this title is among the items. */
  predicate HasSection(items: seq<TreeItem>, heading: string) {
    SectionHeading(heading) in items
  }

  /** The root level has each section heading exactly when that section has items, and keeps every manifest heading. */
  lemma RootItemsSections(favourites: seq<Script>, recents: seq<Script>, headings: seq<TreeItem>)
    requires forall k :: 0 <= k < |headings| ==> headings[k].FileHeading?
    ensures HasSection(RootItems(favourites, recents, headings), FavouritesLabel) <==> favourites != []
    ensures HasSection(RootItems(favourites, recents, headings), RecentsLabel) <==> recents != []
    ensures FileHeadingsIn(RootItems(favourites, recents, headings)) == headings
  {
    var fs := Section(FavouritesLabel, favourites);
    var rs := Section(RecentsLabel, recents);
    assert RootItems(favourites, recents, headings) == fs + rs + headings;
    SectionHeadingsOf(fs, rs, headings, favourites, recents);
    RootFileHeadings(fs, rs, headings, favourites, recents);
  }

  /** Which section headings the concatenated root level holds. */
  lemma SectionHeadingsOf(fs: seq<TreeItem>, rs: seq<TreeItem>, headings: seq<TreeItem>, favourites: seq<Script>, recents: seq<Script>)
    requires fs == Section(FavouritesLabel, favourites) && rs == Section(RecentsLabel, recents)
    requires forall k :: 0 <= k < |headings| ==> headings[k].FileHeading?
    ensures HasSection(fs + rs + headings, FavouritesLabel) <==> favourites != []
    ensures HasSection(fs + rs + headings, RecentsLabel) <==> recents != []
  {
    SectionLabels(FavouritesLabel, favourites);
    SectionLabels(RecentsLabel, recents);
    assert SectionHeading(FavouritesLabel) !in headings && SectionHeading(RecentsLabel) !in headings;
    assert SectionHeading(FavouritesLabel) !in rs && SectionHeading(RecentsLabel) !in fs;
    if favourites != [] {
      assert fs[0] == SectionHeading(FavouritesLabel);
    }
    if recents != [] {
      assert rs[0] == SectionHeading(RecentsLabel);
    }
  }

  /** The file headings of the concatenated root level are the manifest headings. */
  lemma RootFileHeadings(fs: seq<TreeItem>, rs: seq<TreeItem>, headings: seq<TreeItem>, favourites: seq<Script>, recents: seq<Script>)
    requires fs == Section(FavouritesLabel, favourites) && rs == Section(RecentsLabel, recents)
    requires forall k :: 0 <= k < |headings| ==> headings[k].FileHeading?
    ensures FileHeadingsIn(fs + rs + headings) == headings
  {
    FileHeadingsInAppend(fs + rs, headings);
    FileHeadingsInAppend(fs, rs);
    SectionHasNoFileHeadings(FavouritesLabel, favourites);
    SectionHasNoFileHeadings(RecentsLabel, recents);
    AllFileHeadings(headings);
  }

  /** The Favourites section has items exactly when some current script is a favourite. */
  lemma FavouritesShown(all: seq<Script>, favs: seq<string>)
    ensures FavouriteItems(all, favs) != [] <==> exists s :: s in all && s.Id() in favs
  {
    var fav := FavouriteItems(all, favs);
    if fav != [] {
      var s := fav[0];
      assert s in fav;
      if s.(favourite := false) in all {
        assert s.(favourite := false).Id() == s.Id();
      }
    }
    if exists s :: s in all && s.Id() in favs {
      var s :| s in all && s.Id() in favs;
      assert s.(favourite := true) in fav;
    }
  }

  /** The Recents section has items exactly when some non-favourite recent identifier names a current script. */
  lemma RecentsShown(all: seq<Script>, recents: seq<string>, favs: seq<string>)
    ensures RecentItems(all, recents, favs) != [] <==> exists id :: id in recents && id !in favs && HasScript(all, id)
  {
    var rec := RecentItems(all, recents, favs);
    if rec != [] {
      var s := rec[0];
      assert s in rec;
      assert HasScript(all, s.Id());
    }
    if exists id :: id in recents && id !in favs && HasScript(all, id) {
      var id :| id in recents && id !in favs && HasScript(all, id);
      assert HasScript(rec, id);
    }
  }

  /** The file headings among the items, in order. */
  function FileHeadingsIn(items: seq<TreeItem>): (r: seq<TreeItem>)
    ensures |r| <= |items|
    ensures forall t :: t in r ==> t in items && t.FileHeading?
    decreases |items|
  {
    if items == [] then []
    else
      var rest := FileHeadingsIn(items[1..]);
      assert forall t :: t in items[1..] ==> t in items;
      if items[0].FileHeading? then [items[0]] + rest else rest
  }

  /** Picking the manifest headings out of a list distributes over concatenation. */
  lemma {:induction false} FileHeadingsInAppend(a: seq<TreeItem>, b: seq<TreeItem>)
    ensures FileHeadingsIn(a + b) == FileHeadingsIn(a) + FileHeadingsIn(b)
    decreases |a|
  {
    if a == [] {
      assert a + b == b;
    } else {
      assert (a + b)[0] == a[0];
      assert (a + b)[1..] == a[1..] + b;
      FileHeadingsInAppend(a[1..], b);
    }
  }

  /** A list of manifest headings is its own selection of manifest headings. */
  lemma {:induction false} AllFileHeadings(items: seq<TreeItem>)
    requires forall k :: 0 <= k < |items| ==> items[k].FileHeading?
    ensures FileHeadingsIn(items) == items
    decreases |items|
  {
    if items != [] {
      AllFileHeadings(items[1..]);
    }
  }

  /** A list without manifest headings selects none. */
  lemma {:induction false} NoFileHeadings(items: seq<TreeItem>)
    requires forall k :: 0 <= k < |items| ==> !items[k].FileHeading?
    ensures FileHeadingsIn(items) == []
    decreases |items|
  {
    if items != [] {
      NoFileHeadings(items[1..]);
    }
  }

  /** Selecting the manifest headings of a section gives none; derived from SectionItemsNotFileHeadings. */
  lemma SectionHasNoFileHeadings(heading: string, items: seq<Script>)
    ensures FileHeadingsIn(Section(heading, items)) == []
  {
    SectionItemsNotFileHeadings(heading, items);
    NoFileHeadings(Section(heading, items));
  }

  /** A section's only heading is its own. */
  lemma SectionLabels(heading: string, items: seq<Script>)
    ensures forall k :: 0 <= k < |Section(heading, items)| && Section(heading, items)[k].SectionHeading? ==>
      k == 0 && Section(heading, items)[k].title == heading
  {
  }
}
