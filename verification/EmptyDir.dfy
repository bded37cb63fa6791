/** Removing a merged directory that shows nothing: which whiteouts are left to clear, and that clearing them leaves
    the upper directory physically empty. */
module EmptyDir {
  import opened Paths
  import opened Layers
  import opened MergedView
  import opened MergedList
  import opened NameTree
  import opened Readdir

  /** The directory shows nothing. */
  ghost predicate ShowsNothing(layers: seq<seq<DirEnt>>) {
    forall n: string | !IsDot(n) :: !Shown(layers, n)
  }

  /** What the loop has kept of the list. */
  function KeptOf(list: seq<string>, entries: Entries): seq<string> {
    if list == [] then []
    else
      var n := list[|list| - 1];
      KeptOf(list[..|list| - 1], entries) + if n in entries && entries[n].isWhiteout && entries[n].isUpper then [n] else []
  }

  predicate Blocks(entries: Entries, n: string) {
    n in entries && !entries[n].isWhiteout && !IsDot(n)
  }

  lemma {:induction false} KeptHas(list: seq<string>, entries: Entries, n: string)
    requires Unique(list)
    ensures n in KeptOf(list, entries) <==> n in list && n in entries && entries[n].isWhiteout && entries[n].isUpper
    ensures Unique(KeptOf(list, entries))
    decreases |list|
  {
    if list != [] {
      var k := |list| - 1;
      KeptHas(list[..k], entries, n);
      KeptHas(list[..k], entries, list[k]);
      assert list == list[..k] + [list[k]];
    }
  }

  /** ovl_check_empty_dir: exactly a directory that shows nothing passes, and then the list it leaves holds just what
      the upper directory physically holds besides the dot entries, all of it whiteouts. */
  method CheckEmptyDir(m: Mount, layers: seq<seq<DirEnt>>, hasUpper: bool) returns (ok: bool, list: seq<string>)
    requires layers != [] && ListingsOk(layers)
    ensures ok <==> ShowsNothing(layers)
    ensures ok ==> Unique(list)
    ensures ok ==> forall n :: n in list <==> hasUpper && !IsDot(n) && FindIn(layers[0], n).Some?
    ensures ok ==> forall n | n in list :: FindIn(layers[0], n).Some? && FindIn(layers[0], n).value.whiteout
  {
    var reader := new MergeReader(m);
    reader.ReadMerged(layers, hasUpper);
    NamesAreEntries(m, hasUpper, layers);
    ok, list := SelectWhiteouts(reader.list, reader.entries);
    Decided(m, hasUpper, layers, ok, list);
  }

  /** The loop of ovl_check_empty_dir. */
  method SelectWhiteouts(all: seq<string>, entries: Entries) returns (ok: bool, list: seq<string>)
    requires forall k | 0 <= k < |all| :: all[k] in entries
    ensures ok <==> forall k | 0 <= k < |all| :: !Blocks(entries, all[k])
    ensures ok ==> list == KeptOf(all, entries)
  {
    list := [];
    var i := 0;
    while i < |all|
      invariant 0 <= i <= |all|
      invariant list == KeptOf(all[..i], entries)
      invariant forall k | 0 <= k < i :: !Blocks(entries, all[k])
    {
      var p := all[i];
      assert all[..i + 1][..i] == all[..i];
      if entries[p].isWhiteout {
        if entries[p].isUpper {
          list := list + [p];
        }
      } else if p != "." && p != ".." {
        assert Blocks(entries, all[i]);
        return false, list;
      }
      i := i + 1;
    }
    assert all[..i] == all;
    ok := true;
  }

  lemma Decided(m: Mount, hasUpper: bool, layers: seq<seq<DirEnt>>, ok: bool, list: seq<string>)
    requires layers != [] && ListingsOk(layers)
    requires ok <==> forall k | 0 <= k < |MergedNames(layers)| :: !Blocks(MergedEntries(m, hasUpper, layers), MergedNames(layers)[k])
    requires ok ==> list == KeptOf(MergedNames(layers), MergedEntries(m, hasUpper, layers))
    ensures ok <==> ShowsNothing(layers)
    ensures ok ==> Unique(list)
    ensures ok ==> forall n :: n in list <==> hasUpper && !IsDot(n) && FindIn(layers[0], n).Some?
    ensures ok ==> forall n | n in list :: FindIn(layers[0], n).Some? && FindIn(layers[0], n).value.whiteout
  {
    if ok {
      Passed(m, hasUpper, layers, list);
    } else {
      var k :| 0 <= k < |MergedNames(layers)| && Blocks(MergedEntries(m, hasUpper, layers), MergedNames(layers)[k]);
      Blocked(m, hasUpper, layers, MergedNames(layers)[k]);
    }
  }

  lemma NamesAreEntries(m: Mount, hasUpper: bool, layers: seq<seq<DirEnt>>)
    requires layers != [] && ListingsOk(layers)
    ensures forall i | 0 <= i < |MergedNames(layers)| :: MergedNames(layers)[i] in MergedEntries(m, hasUpper, layers)
  {
    forall i | 0 <= i < |MergedNames(layers)| ensures MergedNames(layers)[i] in MergedEntries(m, hasUpper, layers) {
      MergedNamesRight(layers, MergedNames(layers)[i]);
      EntriesAreTop(m, hasUpper, layers, MergedNames(layers)[i]);
    }
  }

  lemma Blocked(m: Mount, hasUpper: bool, layers: seq<seq<DirEnt>>, n: string)
    requires layers != [] && ListingsOk(layers) && Blocks(MergedEntries(m, hasUpper, layers), n)
    ensures !ShowsNothing(layers)
  {
    EntriesAreTop(m, hasUpper, layers, n);
    assert Shown(layers, n);
  }

  /** What one name has to do with the loop passing it. */
  lemma PassedName(m: Mount, hasUpper: bool, layers: seq<seq<DirEnt>>, n: string)
    requires layers != [] && ListingsOk(layers)
    requires !Blocks(MergedEntries(m, hasUpper, layers), n)
    ensures !IsDot(n) ==> !Shown(layers, n)
    ensures var kept := n in KeptOf(MergedNames(layers), MergedEntries(m, hasUpper, layers));
      && (kept <==> hasUpper && !IsDot(n) && FindIn(layers[0], n).Some?)
      && (kept ==> FindIn(layers[0], n).value.whiteout)
  {
    MergedNamesRight(layers, n);
    EntriesAreTop(m, hasUpper, layers, n);
    KeptHas(MergedNames(layers), MergedEntries(m, hasUpper, layers), n);
    if Top(layers, n).Some? && IsDot(n) {
      DotsAreDirectories(layers, n);
    }
  }

  lemma Passed(m: Mount, hasUpper: bool, layers: seq<seq<DirEnt>>, list: seq<string>)
    requires layers != [] && ListingsOk(layers)
    requires forall k | 0 <= k < |MergedNames(layers)| :: !Blocks(MergedEntries(m, hasUpper, layers), MergedNames(layers)[k])
    requires list == KeptOf(MergedNames(layers), MergedEntries(m, hasUpper, layers))
    ensures ShowsNothing(layers)
    ensures Unique(list)
    ensures forall n :: n in list <==> hasUpper && !IsDot(n) && FindIn(layers[0], n).Some?
    ensures forall n | n in list :: FindIn(layers[0], n).Some? && FindIn(layers[0], n).value.whiteout
  {
    var entries := MergedEntries(m, hasUpper, layers);
    MergedNamesRight(layers, "");
    KeptHas(MergedNames(layers), entries, "");
    forall n: string
      ensures !IsDot(n) ==> !Shown(layers, n)
      ensures n in list <==> hasUpper && !IsDot(n) && FindIn(layers[0], n).Some?
      ensures n in list ==> FindIn(layers[0], n).value.whiteout
    {
      NotBlocking(m, hasUpper, layers, n);
      PassedName(m, hasUpper, layers, n);
    }
  }

  lemma NotBlocking(m: Mount, hasUpper: bool, layers: seq<seq<DirEnt>>, n: string)
    requires layers != [] && ListingsOk(layers)
    requires forall k | 0 <= k < |MergedNames(layers)| :: !Blocks(MergedEntries(m, hasUpper, layers), MergedNames(layers)[k])
    ensures !Blocks(MergedEntries(m, hasUpper, layers), n)
  {
    MergedNamesRight(layers, n);
    EntriesAreTop(m, hasUpper, layers, n);
  }

  lemma DotsAreDirectories(layers: seq<seq<DirEnt>>, n: string)
    requires ListingsOk(layers) && Top(layers, n).Some? && IsDot(n)
    ensures !Top(layers, n).value.ent.whiteout
  {
    var h := Top(layers, n).value;
    assert h.ent in layers[h.level];
  }

  /** The listings show nothing iff the dentry's physical entries are all covered by whiteouts, which is what dir.c's
      removal and rename go by; and the names left to clear are then all names in the upper directory. */
  lemma ShowsNothingIsMergedEmpty(e: Entry, layers: seq<seq<DirEnt>>)
    requires e.Entry? && e.IsDir() && ListsAll(layers, DirsOf(e)) && forall n | n in Names(e) :: !IsDot(n)
    ensures ShowsNothing(layers) <==> MergedEmpty(e)
    ensures e.UpperDir() ==> forall n: string :: n in e.upper.value.kids <==> !IsDot(n) && FindIn(layers[0], n).Some?
  {
    forall n: string | !IsDot(n) ensures n in Names(e) <==> Top(layers, n).Some? {
      TopIsTopmost(layers, e, n);
      LowerNamesTop(e.lower, n);
    }
    forall n: string | !IsDot(n) ensures Shown(layers, n) <==> Topmost(e, n).Some? && !Topmost(e, n).value.Whiteout? {
      TopIsTopmost(layers, e, n);
    }
    if MergedEmpty(e) {
      forall n: string | !IsDot(n) ensures !Shown(layers, n) {
      }
    }
    if ShowsNothing(layers) {
      forall n | n in Names(e) && Topmost(e, n).Some? ensures Topmost(e, n).value.Whiteout? {
        assert !Shown(layers, n);
      }
    }
    if e.UpperDir() {
      assert Lists(layers[0], DirsOf(e)[0]);
      assert forall n | n in e.upper.value.kids :: n in Names(e);
    }
  }

  class RealDir {
    var kids: map<string, Node>

    constructor (kids: map<string, Node>)
      ensures this.kids == kids
    {
      this.kids := kids;
    }

    /** ovl_cleanup_whiteouts: what is removed is a whiteout. Removing one of failing does not succeed, and the others
        are removed nevertheless. */
    method CleanupWhiteouts(list: seq<string>, failing: set<string>)
      requires forall n | n in list && n in kids :: kids[n].Whiteout?
      modifies this
      ensures kids == old(kids) - (Elems(list) - failing)
    {
      var i := 0;
      while i < |list|
        invariant 0 <= i <= |list| && kids == old(kids) - (Elems(list[..i]) - failing)
      {
        assert Elems(list[..i + 1]) == Elems(list[..i]) + {list[i]};
        if list[i] in kids && list[i] !in failing {
          kids := kids - {list[i]};
        }
        i := i + 1;
      }
      assert list[..i] == list;
    }

    /** Checking and clearing, as ovl_clear_empty does before it removes the directory it replaced: that is physically
        empty then exactly if no whiteout in it resisted. */
    method ClearIfEmpty(m: Mount, layers: seq<seq<DirEnt>>, failing: set<string>) returns (ok: bool)
      requires layers != [] && ListingsOk(layers) && Lists(layers[0], Dir(false, None, false, kids))
      requires forall n | n in kids :: !IsDot(n)
      modifies this
      ensures ok <==> ShowsNothing(layers)
      ensures !ok ==> kids == old(kids)
      ensures ok ==> kids.Keys == old(kids).Keys * failing && (kids == map[] <==> old(kids).Keys * failing == {})
    {
      var list;
      ok, list := CheckEmptyDir(m, layers, true);
      if ok {
        assert Elems(list) == kids.Keys;
        CleanupWhiteouts(list, failing);
        assert kids.Keys == {} <==> kids == map[];
      }
    }
  }
}
