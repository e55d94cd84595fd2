/**
 The favourites and recents lists kept in the extension's global state under
 the keys `favouriteScripts` and `recentScripts`. The persisted store is
 modelled as the two lists themselves; each command maps the old list to the
 new one.
 */
module Store {
  import opened Seqs

  /** The recents list keeps at most this many identifiers. */
  const MaxRecents: nat := 5

  /** The add-favourite command: append the identifier unless it is already present. */
  function AddFavourite(favs: seq<string>, id: string): (r: seq<string>)
    ensures id in r
    ensures id in favs ==> r == favs
    ensures id !in favs ==> |r| == |favs| + 1 && r[..|favs|] == favs && r[|favs|] == id
    ensures forall y :: y in r <==> y in favs || y == id
  {
    if id in favs then favs else favs + [id]
  }

  /** The remove-favourite command: drop every occurrence of the identifier. */
  function RemoveFavourite(favs: seq<string>, id: string): (r: seq<string>)
    ensures id !in r
    ensures forall y :: y in r <==> y in favs && y != id
    ensures IsSubsequence(r, favs)
    ensures id !in favs ==> r == favs
  {
    RemoveAll(favs, id)
  }

  /** Removing a favourite that was just added restores the list it was added to. */
  lemma AddRemoveRoundTrip(favs: seq<string>, id: string)
    requires id !in favs
    ensures RemoveFavourite(AddFavourite(favs, id), id) == favs
  {
    RemoveAllConcat(favs, [id], id);
  }

  /** Adding twice is adding once, and removing twice is removing once. */
  lemma FavouriteCommandsIdempotent(favs: seq<string>, id: string)
    ensures AddFavourite(AddFavourite(favs, id), id) == AddFavourite(favs, id)
    ensures RemoveFavourite(RemoveFavourite(favs, id), id) == RemoveFavourite(favs, id)
  {
  }

  /** Both favourite commands keep a duplicate-free list duplicate-free. */
  lemma FavouritesStayDuplicateFree(favs: seq<string>, id: string)
    requires NoDuplicates(favs)
    ensures NoDuplicates(AddFavourite(favs, id))
    ensures NoDuplicates(RemoveFavourite(favs, id))
  {
    RemoveAllNoDuplicates(favs, id);
    if id !in favs {
      var r := favs + [id];
      forall i, j | 0 <= i < j < |r|
        ensures r[i] != r[j]
      {
        if j == |favs| {
          assert r[i] == favs[i];
        } else {
          assert r[i] == favs[i] && r[j] == favs[j];
        }
      }
    }
  }

  /**
   Recording an execution of `id`: delete it from the recents list, put it in
   front, and keep the five most recent entries.
   */
  function RecordExecution(recents: seq<string>, id: string): (r: seq<string>)
    ensures 1 <= |r| <= MaxRecents
    ensures r[0] == id
    ensures forall k :: 0 < k < |r| ==> r[k] != id
    ensures multiset(r)[id] == 1
    ensures |r| == if |RemoveAll(recents, id)| < MaxRecents then |RemoveAll(recents, id)| + 1 else MaxRecents
    ensures r[1..] == RemoveAll(recents, id)[..|r| - 1]
  {
    var rest := RemoveAll(recents, id);
    var pushed := [id] + rest;
    var n := if |pushed| > MaxRecents then MaxRecents - 1 else |rest|;
    var kept := rest[..n];
    var r := if |pushed| > MaxRecents then pushed[..MaxRecents] else pushed;
    assert r == [id] + kept;
    assert id !in kept;
    FrontOnce(id, kept);
    r
  }

  /** Recording the same identifier twice in a row is the same as recording it once. */
  lemma RecordExecutionIdempotent(recents: seq<string>, id: string)
    ensures RecordExecution(RecordExecution(recents, id), id) == RecordExecution(recents, id)
  {
    var r := RecordExecution(recents, id);
    assert r == [id] + r[1..];
    RemoveAllConcat([id], r[1..], id);
    assert RemoveAll(r, id) == r[1..];
  }

  /** The entries behind the front one keep their order from the prior list. */
  lemma RecordExecutionKeepsOrder(recents: seq<string>, id: string)
    ensures IsSubsequence(RecordExecution(recents, id)[1..], recents)
  {
    var r := RecordExecution(recents, id);
    PrefixOfSubsequence(RemoveAll(recents, id), recents, |r| - 1);
  }

  /** Recording keeps a duplicate-free recents list duplicate-free. */
  lemma RecordExecutionStaysDuplicateFree(recents: seq<string>, id: string)
    requires NoDuplicates(recents)
    ensures NoDuplicates(RecordExecution(recents, id))
  {
    var r := RecordExecution(recents, id);
    var rest := RemoveAll(recents, id);
    RemoveAllNoDuplicates(recents, id);
    assert NoDuplicates(r[1..]) by {
      forall i, j | 0 <= i < j < |r[1..]|
        ensures r[1..][i] != r[1..][j]
      {
        assert r[1..][i] == rest[i] && r[1..][j] == rest[j];
      }
    }
    assert r == [id] + r[1..];
    ConsNoDuplicates(id, r[1..]);
  }

  /** The recents after a sequence of executions, applied first to last. */
  function RecordAll(recents: seq<string>, ids: seq<string>): (r: seq<string>)
    ensures |ids| > 0 ==> 1 <= |r| <= MaxRecents && r[0] == ids[|ids| - 1]
    ensures |ids| == 0 ==> r == recents
  {
    if ids == [] then recents
    else RecordExecution(RecordAll(recents, ids[..|ids| - 1]), ids[|ids| - 1])
  }

  /** Running `test`, then `build`, then `test` again leaves the recents `[test, build]`. */
  lemma RerunMovesToFront(test: string, build: string)
    requires test != build
    ensures RecordAll([], [test, build, test]) == [test, build]
  {
    assert [test, build, test][..2] == [test, build];
    assert [test, build][..1] == [test];
    assert RecordAll([], [test]) == [test];
    assert RecordAll([], [test, build]) == [build, test];
    assert RemoveAll([build, test], test) == [build] by {
      RemoveAllConcat([build], [test], test);
    }
  }
}
