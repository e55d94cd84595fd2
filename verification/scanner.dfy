/**
 The manifest scan: a depth-first walk of the workspace that collects every
 file named `package.json`, never entering `node_modules` or `.git`.

 The file system is an abstract tree. A directory either lists its entries in
 directory-listing order or cannot be read (the walk logs the error and
 yields nothing for it). A file carries what reading and parsing it gives,
 so the later JSON step needs no further file-system access.
 */
module Scanner {
  import opened Seqs

  /** The outcome of reading a manifest and parsing it as JSON. */
  datatype Content =
    | Unparsable                                    // read or parse error: skipped
    | NoScripts                                     // parsed, but `scripts` is missing or falsy
    | Scripts(entries: seq<(string, string)>)       // `scripts` entries as (name, command), in object order

  /** A directory entry: a file, a directory, or anything else (a link, a socket, ...). */
  datatype Node =
    | File(name: string, content: Content)
    | Dir(name: string, listing: Listing)
    | Other(name: string)

  datatype Listing = Unreadable | Entries(entries: seq<Node>)

  /** A manifest the scan found: its path below the root as segments, and its content. */
  datatype Found = Found(segments: seq<string>, content: Content)

  const ManifestName: string := "package.json"

  /** Directory names the walk never enters. */
  predicate Skipped(name: string) {
    name == "node_modules" || name == ".git"
  }

  /** `segments` below `prefix` names a manifest reached only through directories the walk enters. */
  ghost predicate ManifestPathBelow(prefix: seq<string>, segments: seq<string>) {
    && |segments| > |prefix|
    && segments[..|prefix|] == prefix
    && segments[|segments| - 1] == ManifestName
    && forall k :: |prefix| <= k < |segments| - 1 ==> !Skipped(segments[k])
  }

  /** The walk of one directory entry whose parent is at `prefix`. */
  function ScanNode(prefix: seq<string>, n: Node): (r: seq<Found>)
    ensures forall f :: f in r ==> ManifestPathBelow(prefix, f.segments)
    ensures forall f :: f in r ==> |f.segments| > |prefix| && f.segments[|prefix|] == n.name
    decreases n
  {
    match n
    case Dir(name, listing) =>
      if Skipped(name) || listing.Unreadable? then []
      else
        var sub := ScanEntries(prefix + [name], listing.entries);
        assert forall f :: f in sub ==> ManifestPathBelow(prefix, f.segments) by {
          forall f | f in sub
            ensures ManifestPathBelow(prefix, f.segments)
          {
            assert f.segments[..|prefix|] == (prefix + [name])[..|prefix|];
          }
        }
        assert forall f :: f in sub ==> f.segments[|prefix|] == name by {
          forall f | f in sub
            ensures f.segments[|prefix|] == name
          {
            assert f.segments[..|prefix| + 1] == prefix + [name];
            assert f.segments[..|prefix| + 1][|prefix|] == f.segments[|prefix|];
          }
        }
        sub
    case File(name, content) =>
      if name == ManifestName then [Found(prefix + [name], content)] else []
    case Other(_) => []
  }

  /** The walk of a directory's entries, in listing order. */
  function ScanEntries(prefix: seq<string>, es: seq<Node>): (r: seq<Found>)
    ensures forall f :: f in r ==> ManifestPathBelow(prefix, f.segments)
    decreases es
  {
    if es == [] then []
    else ScanNode(prefix, es[0]) + ScanEntries(prefix, es[1..])
  }

  /**
   The scan of the workspace root. Every path it returns ends in `package.json`
   and passes through no `node_modules` or `.git` directory.
   */
  function Scan(root: Listing): (r: seq<Found>)
    ensures forall f :: f in r ==> |f.segments| > 0 && f.segments[|f.segments| - 1] == ManifestName
    ensures forall f, k :: f in r && 0 <= k < |f.segments| ==> !Skipped(f.segments[k])
  {
    match root
    case Unreadable => []
    case Entries(es) => ScanEntries([], es)
  }

  /** `segments` leads from this entry to a manifest through directories the walk enters. */
  ghost predicate ReachesManifest(n: Node, segments: seq<string>, c: Content)
    decreases n
  {
    match n
    case File(name, fc) => segments == [name] && name == ManifestName && fc == c
    case Dir(name, listing) =>
      && !Skipped(name)
      && listing.Entries?
      && |segments| > 0
      && segments[0] == name
      && ReachesManifestIn(listing.entries, segments[1..], c)
    case Other(_) => false
  }

  /** Some entry of the listing reaches a manifest along `segments`. */
  ghost predicate ReachesManifestIn(es: seq<Node>, segments: seq<string>, c: Content)
    decreases es
  {
    exists i :: 0 <= i < |es| && ReachesManifest(es[i], segments, c)
  }

  /** The walk of one entry finds exactly the manifests reachable from it. */
  lemma {:induction false} ScanNodeComplete(prefix: seq<string>, n: Node, segments: seq<string>, c: Content)
    ensures Found(prefix + segments, c) in ScanNode(prefix, n) <==> ReachesManifest(n, segments, c)
    decreases n
  {
    match n
    case File(name, fc) =>
      if prefix + segments == prefix + [name] {
        assert segments == (prefix + segments)[|prefix|..];
      }
    case Dir(name, listing) =>
      if !Skipped(name) && listing.Entries? {
        var es := listing.entries;
        var inner := prefix + [name];
        if Found(prefix + segments, c) in ScanNode(prefix, n) {
          assert ManifestPathBelow(inner, prefix + segments);
          assert (prefix + segments)[|prefix|] == segments[0];
          assert prefix + segments == inner + segments[1..];
          ScanEntriesComplete(inner, es, segments[1..], c);
        }
        if ReachesManifest(n, segments, c) {
          assert prefix + segments == inner + segments[1..];
          ScanEntriesComplete(inner, es, segments[1..], c);
        }
      }
    case Other(_) =>
  }

  /** The walk of a listing finds exactly the manifests reachable from its entries. */
  lemma {:induction false} ScanEntriesComplete(prefix: seq<string>, es: seq<Node>, segments: seq<string>, c: Content)
    ensures Found(prefix + segments, c) in ScanEntries(prefix, es) <==> ReachesManifestIn(es, segments, c)
    decreases es
  {
    if es != [] {
      ScanNodeComplete(prefix, es[0], segments, c);
      ScanEntriesComplete(prefix, es[1..], segments, c);
      if ReachesManifestIn(es, segments, c) {
        var i :| 0 <= i < |es| && ReachesManifest(es[i], segments, c);
        if i > 0 {
          assert es[1..][i - 1] == es[i];
        }
      }
      if ReachesManifestIn(es[1..], segments, c) {
        var i :| 0 <= i < |es[1..]| && ReachesManifest(es[1..][i], segments, c);
        assert es[i + 1] == es[1..][i];
      }
    }
  }

  /** A manifest is in the scan result exactly when it is reachable from the root. */
  lemma ScanComplete(root: Listing, segments: seq<string>, c: Content)
    ensures Found(segments, c) in Scan(root) <==> root.Entries? && ReachesManifestIn(root.entries, segments, c)
  {
    if root.Entries? {
      assert [] + segments == segments;
      ScanEntriesComplete([], root.entries, segments, c);
    }
  }

  /** Depth-first listing order: the manifests under earlier entries come first. */
  lemma {:induction false} ScanEntriesAppend(prefix: seq<string>, a: seq<Node>, b: seq<Node>)
    ensures ScanEntries(prefix, a + b) == ScanEntries(prefix, a) + ScanEntries(prefix, b)
    decreases |a|
  {
    if a == [] {
      assert a + b == b;
    } else {
      assert (a + b)[0] == a[0];
      assert (a + b)[1..] == a[1..] + b;
      ScanEntriesAppend(prefix, a[1..], b);
    }
  }

  /** A directory entry contributes the walk of its own listing, in that listing's order. */
  lemma ScanDirAppend(prefix: seq<string>, name: string, a: seq<Node>, b: seq<Node>)
    requires !Skipped(name)
    ensures ScanNode(prefix, Dir(name, Entries(a + b))) == ScanNode(prefix, Dir(name, Entries(a))) + ScanNode(prefix, Dir(name, Entries(b)))
  {
    ScanEntriesAppend(prefix + [name], a, b);
  }

  /** A listing of one entry is walked as that entry. */
  lemma ScanEntriesOne(prefix: seq<string>, n: Node)
    ensures ScanEntries(prefix, [n]) == ScanNode(prefix, n)
  {
    assert [n][1..] == [];
  }

  /** The entries of a listing have distinct names, as in any directory. */
  ghost predicate DistinctNames(es: seq<Node>) {
    forall i, j :: 0 <= i < j < |es| ==> es[i].name != es[j].name
  }

  /** Every readable directory at or below this entry lists distinct names. */
  ghost predicate WellNamed(n: Node)
    decreases n
  {
    match n
    case Dir(_, listing) => listing.Entries? ==> WellNamedAll(listing.entries)
    case _ => true
  }

  /** The listing has distinct names and every entry is well named. */
  ghost predicate WellNamedAll(es: seq<Node>)
    decreases es
  {
    DistinctNames(es) && forall i :: 0 <= i < |es| ==> WellNamed(es[i])
  }

  /** Each manifest found in a listing sits below one of the listing's entries. */
  lemma {:induction false} ScanEntriesHeads(prefix: seq<string>, es: seq<Node>, f: Found)
    requires f in ScanEntries(prefix, es)
    ensures exists i :: 0 <= i < |es| && f.segments[|prefix|] == es[i].name
    decreases |es|
  {
    if f in ScanNode(prefix, es[0]) {
      assert f.segments[|prefix|] == es[0].name;
    } else {
      ScanEntriesHeads(prefix, es[1..], f);
      var i :| 0 <= i < |es[1..]| && f.segments[|prefix|] == es[1..][i].name;
      assert es[1..][i] == es[i + 1];
    }
  }

  /** A manifest found under a later entry of a listing with distinct names does not sit below the first entry. */
  lemma TailHeadDiffers(prefix: seq<string>, es: seq<Node>, f: Found)
    requires es != [] && DistinctNames(es)
    requires f in ScanEntries(prefix, es[1..])
    ensures |f.segments| > |prefix| && f.segments[|prefix|] != es[0].name
  {
    ScanEntriesHeads(prefix, es[1..], f);
    var i :| 0 <= i < |es[1..]| && f.segments[|prefix|] == es[1..][i].name;
    assert es[1..][i] == es[i + 1];
  }

  /** In a tree whose directories list distinct names, the walk below an entry finds each manifest once. */
  lemma {:induction false} ScanNodeNoDuplicates(prefix: seq<string>, n: Node)
    requires WellNamed(n)
    ensures NoDuplicates(ScanNode(prefix, n))
    decreases n
  {
    match n
    case Dir(name, listing) =>
      if !Skipped(name) && listing.Entries? {
        ScanEntriesNoDuplicates(prefix + [name], listing.entries);
      }
    case File(_, _) =>
    case Other(_) =>
  }

  /** In a listing with distinct names, no manifest is found twice. */
  lemma {:induction false} ScanEntriesNoDuplicates(prefix: seq<string>, es: seq<Node>)
    requires WellNamedAll(es)
    ensures NoDuplicates(ScanEntries(prefix, es))
    decreases es
  {
    if es != [] {
      assert WellNamed(es[0]);
      assert WellNamedAll(es[1..]) by {
        forall i | 0 <= i < |es[1..]|
          ensures WellNamed(es[1..][i])
        {
          assert es[1..][i] == es[i + 1];
        }
        forall i, j | 0 <= i < j < |es[1..]|
          ensures es[1..][i].name != es[1..][j].name
        {
          assert es[1..][i] == es[i + 1] && es[1..][j] == es[j + 1];
        }
      }
      ScanNodeNoDuplicates(prefix, es[0]);
      ScanEntriesNoDuplicates(prefix, es[1..]);
      var first := ScanNode(prefix, es[0]);
      var rest := ScanEntries(prefix, es[1..]);
      forall f | f in rest
        ensures f.segments[|prefix|] != es[0].name
      {
        TailHeadDiffers(prefix, es, f);
      }
      ConcatNoDuplicates(first, rest);
    }
  }

  /** The scan of a tree whose directories list distinct names finds each manifest once. */
  lemma ScanNoDuplicates(root: Listing)
    requires root.Entries? ==> WellNamedAll(root.entries)
    ensures NoDuplicates(Scan(root))
  {
    if root.Entries? {
      ScanEntriesNoDuplicates([], root.entries);
    }
  }
}
