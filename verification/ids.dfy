/**
 Script identifiers. A script is identified by the absolute path of the
 manifest that declares it, the two-character separator `::`, and the script's
 name. The identifier is the only key joining freshly scanned scripts with the
 persisted favourites and recents lists.
 */
module ScriptIds {
  import opened Seqs

  const Separator: string := "::"

  /** The identifier of script `name` declared in the manifest at `path`. */
  function ScriptId(path: string, name: string): (id: string)
    ensures |id| == |path| + |Separator| + |name|
    ensures id[..|path|] == path
    ensures id[|path|..|path| + |Separator|] == Separator
    ensures id[|path| + |Separator|..] == name
  {
    path + Separator + name
  }

  /** The separator starts at index `k` of `s`. */
  predicate SeparatorAt(s: string, k: int) {
    0 <= k && k + 1 < |s| && s[k] == ':' && s[k + 1] == ':'
  }

  /**
   A path that can be recovered from an identifier: it contains no `::` and does
   not end in `:` (a trailing colon would merge with the separator). Every
   manifest path ends in `package.json`, so the second half always holds there.
   */
  predicate SeparatorFree(path: string) {
    && (forall k :: 0 <= k < |path| ==> !SeparatorAt(path, k))
    && (|path| == 0 || path[|path| - 1] != ':')
  }

  /** The first index at or after `from` where the separator starts, if any. */
  function FindSeparator(s: string, from: nat): (r: Option<nat>)
    requires from <= |s|
    ensures r.Some? ==> from <= r.value && SeparatorAt(s, r.value)
    ensures r.Some? ==> forall k :: from <= k < r.value ==> !SeparatorAt(s, k)
    ensures r.None? ==> forall k :: from <= k ==> !SeparatorAt(s, k)
    decreases |s| - from
  {
    if from + 1 >= |s| then None
    else if s[from] == ':' && s[from + 1] == ':' then Some(from)
    else FindSeparator(s, from + 1)
  }

  /** Splits an identifier back into (manifest path, script name) at its first separator. */
  function SplitScriptId(id: string): (r: Option<(string, string)>)
    ensures r.Some? ==> ScriptId(r.value.0, r.value.1) == id && SeparatorFree(r.value.0)
    ensures r.None? ==> forall k :: !SeparatorAt(id, k)
  {
    match FindSeparator(id, 0)
    case None => None
    case Some(i) =>
      var path := id[..i];
      assert id == path + Separator + id[i + 2..];
      assert forall k :: 0 <= k < |path| ==> !SeparatorAt(path, k) by {
        forall k | 0 <= k < |path| && SeparatorAt(path, k)
          ensures false
        {
          assert SeparatorAt(id, k);
        }
      }
      assert |path| > 0 ==> !SeparatorAt(id, i - 1);
      Some((path, id[i + 2..]))
  }

  /** Splitting undoes joining whenever the path is separator-free. */
  lemma SplitJoinRoundTrip(path: string, name: string)
    requires SeparatorFree(path)
    ensures SplitScriptId(ScriptId(path, name)) == Some((path, name))
  {
    var id := ScriptId(path, name);
    assert SeparatorAt(id, |path|);
    forall k | 0 <= k < |path|
      ensures !SeparatorAt(id, k)
    {
      if k + 1 < |path| {
        assert !SeparatorAt(path, k);
      } else {
        assert id[k] == path[|path| - 1];
      }
    }
    assert FindSeparator(id, 0) == Some(|path|);
  }

  /** Distinct (separator-free path, name) pairs never share an identifier. */
  lemma ScriptIdInjective(p1: string, n1: string, p2: string, n2: string)
    requires SeparatorFree(p1) && SeparatorFree(p2)
    requires ScriptId(p1, n1) == ScriptId(p2, n2)
    ensures p1 == p2 && n1 == n2
  {
    SplitJoinRoundTrip(p1, n1);
    SplitJoinRoundTrip(p2, n2);
  }

  /** Within one manifest, distinct script names give distinct identifiers, whatever the path. */
  lemma SamePathScriptIdInjective(path: string, n1: string, n2: string)
    requires ScriptId(path, n1) == ScriptId(path, n2)
    ensures n1 == n2
  {
    assert n1 == ScriptId(path, n1)[|path| + |Separator|..];
  }

  /** Without the separator-free condition two different pairs can collide. */
  lemma TrailingColonCollides()
    ensures ScriptId("a:", "b") == ScriptId("a", ":b")
  {
  }
}
