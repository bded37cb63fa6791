/** readdir.c: building a merged listing, layer by layer. Entries are known by their names: the list and the tree hold
    names, and the rest of an entry is in a map. */
module Readdir {
  import opened Paths
  import opened NameTree
  import opened MergedList

  /** struct ovl_cache_entry. */
  datatype CacheEntry = CacheEntry(dtype: DType, realIno: nat, ino: nat, isUpper: bool, isWhiteout: bool)

  /** What ovl_calc_d_ino looks at. */
  datatype Mount = Mount(xinoBits: nat, impure: bool)

  /** ovl_calc_d_ino, for a listing that will be iterated. */
  predicate CalcDIno(m: Mount, isUpper: bool, name: string) {
    m.xinoBits > 0 || name == ".." || (isUpper && (name == "." || m.impure))
  }

  /** The finished entry for what a layer lists. */
  function EntryFor(m: Mount, isUpper: bool, r: DirEnt): CacheEntry {
    CacheEntry(r.dtype, r.ino, if CalcDIno(m, isUpper, r.name) then 0 else r.ino, isUpper, r.whiteout)
  }

  type Entries = map<string, CacheEntry>

  /** What one more layer adds: entries for its names that were not there. */
  function Extended(before: Entries, m: Mount, isUpper: bool, layer: seq<DirEnt>): Entries
    decreases |layer|
  {
    if layer == [] then before
    else
      var r := layer[|layer| - 1];
      var cur := Extended(before, m, isUpper, layer[..|layer| - 1]);
      if r.name in cur then cur else cur[r.name := EntryFor(m, isUpper, r)]
  }

  function MergedEntries(m: Mount, hasUpper: bool, layers: seq<seq<DirEnt>>): Entries {
    if layers == [] then map[]
    else
      var k := |layers| - 1;
      Extended(MergedEntries(m, hasUpper, layers[..k]), m, hasUpper && k == 0, layers[k])
  }

  lemma {:induction false} ExtendedHas(before: Entries, m: Mount, isUpper: bool, layer: seq<DirEnt>, n: string)
    ensures var after := Extended(before, m, isUpper, layer);
      && (n in after <==> n in before || FindIn(layer, n).Some?)
      && (n in before ==> after[n] == before[n])
      && (n !in before && n in after ==> after[n] == EntryFor(m, isUpper, FindIn(layer, n).value))
    decreases |layer|
  {
    if layer != [] {
      var k := |layer| - 1;
      ExtendedHas(before, m, isUpper, layer[..k], n);
      FindInAppend(layer[..k], layer[k], n);
      assert layer == layer[..k] + [layer[k]];
    }
  }

  /** The merged entries hold, for every name, the entry of its topmost layer with its whiteout flag. */
  lemma {:induction false} EntriesAreTop(m: Mount, hasUpper: bool, layers: seq<seq<DirEnt>>, n: string)
    ensures var entries, top := MergedEntries(m, hasUpper, layers), Top(layers, n);
      && (n in entries <==> top.Some?)
      && (n in entries ==> entries[n] == EntryFor(m, hasUpper && top.value.level == 0, top.value.ent))
    decreases |layers|
  {
    if layers != [] {
      var k := |layers| - 1;
      EntriesAreTop(m, hasUpper, layers[..k], n);
      ExtendedHas(MergedEntries(m, hasUpper, layers[..k]), m, hasUpper && k == 0, layers[k], n);
      assert layers == layers[..k] + [layers[k]];
      TopAppend(layers[..k], layers[k], n);
    }
  }

  /** The same while the layer is being read: the whiteout flags are set later. */
  function AddOne(before: Entries, m: Mount, isUpper: bool, r: DirEnt): Entries {
    if r.name in before then before else before[r.name := Unmarked(m, isUpper, r)]
  }

  function Added(before: Entries, m: Mount, isUpper: bool, layer: seq<DirEnt>): Entries
    decreases |layer|
  {
    if layer == [] then before else AddOne(Added(before, m, isUpper, layer[..|layer| - 1]), m, isUpper, layer[|layer| - 1])
  }

  /** The new character devices, last one first. */
  function MaybeWhiteouts(before: Entries, m: Mount, isUpper: bool, layer: seq<DirEnt>): seq<string>
    decreases |layer|
  {
    if layer == [] then []
    else
      var init, r := layer[..|layer| - 1], layer[|layer| - 1];
      (if r.name !in Added(before, m, isUpper, init) && r.dtype.Chr? then [r.name] else []) + MaybeWhiteouts(before, m, isUpper, init)
  }

  lemma AddedNext(before: Entries, m: Mount, isUpper: bool, layer: seq<DirEnt>, i: nat)
    requires i < |layer|
    ensures Added(before, m, isUpper, layer[..i + 1]) == AddOne(Added(before, m, isUpper, layer[..i]), m, isUpper, layer[i])
    ensures MaybeWhiteouts(before, m, isUpper, layer[..i + 1]) ==
      (if layer[i].name !in Added(before, m, isUpper, layer[..i]) && layer[i].dtype.Chr? then [layer[i].name] else [])
      + MaybeWhiteouts(before, m, isUpper, layer[..i])
  {
    assert layer[..i + 1][..i] == layer[..i];
  }

  function Unmarked(m: Mount, isUpper: bool, r: DirEnt): CacheEntry {
    EntryFor(m, isUpper, r).(isWhiteout := false)
  }

  /** What has been added, name by name. */
  lemma {:induction false} AddedHas(before: Entries, m: Mount, isUpper: bool, layer: seq<DirEnt>, n: string)
    ensures var added := Added(before, m, isUpper, layer);
      && (n in added <==> n in before || FindIn(layer, n).Some?)
      && (n in before ==> added[n] == before[n])
      && (n !in before && n in added ==> added[n] == Unmarked(m, isUpper, FindIn(layer, n).value))
    decreases |layer|
  {
    if layer != [] {
      var k := |layer| - 1;
      AddedHas(before, m, isUpper, layer[..k], n);
      FindInAppend(layer[..k], layer[k], n);
      assert layer == layer[..k] + [layer[k]];
    }
  }

  lemma {:induction false} MaybeHas(before: Entries, m: Mount, isUpper: bool, layer: seq<DirEnt>, n: string)
    ensures n in MaybeWhiteouts(before, m, isUpper, layer) <==> n !in before && FindIn(layer, n).Some? && FindIn(layer, n).value.dtype.Chr?
    decreases |layer|
  {
    if layer != [] {
      var k := |layer| - 1;
      MaybeHas(before, m, isUpper, layer[..k], n);
      FindInAppend(layer[..k], layer[k], n);
      AddedHas(before, m, isUpper, layer[..k], layer[k].name);
      assert layer == layer[..k] + [layer[k]];
    }
  }

  lemma {:induction false} FindInAppend(layer: seq<DirEnt>, r: DirEnt, n: string)
    ensures FindIn(layer + [r], n) == if FindIn(layer, n).Some? then FindIn(layer, n) else if r.name == n then Some(r) else None
  {
    if layer == [] {
      assert layer + [r] == [r];
    } else {
      assert (layer + [r])[1..] == layer[1..] + [r];
      FindInAppend(layer[1..], r, n);
    }
  }

  /** Setting the flags of the character devices completes the entries of the layer. */
  lemma MarkedIsExtended(before: Entries, m: Mount, isUpper: bool, layer: seq<DirEnt>, after: Entries)
    requires ListingOk(layer) && after.Keys == Added(before, m, isUpper, layer).Keys
    requires forall n | n in MaybeWhiteouts(before, m, isUpper, layer) :: FindIn(layer, n).Some?
    requires forall n | n in after ::
      && (n in MaybeWhiteouts(before, m, isUpper, layer) ==>
            after[n] == Added(before, m, isUpper, layer)[n].(isWhiteout := FindIn(layer, n).value.whiteout))
      && (n !in MaybeWhiteouts(before, m, isUpper, layer) ==> after[n] == Added(before, m, isUpper, layer)[n])
    ensures after == Extended(before, m, isUpper, layer)
  {
    var spec := Extended(before, m, isUpper, layer);
    forall n ensures n in after <==> n in spec ensures n in after ==> after[n] == spec[n] {
      AddedHas(before, m, isUpper, layer, n);
      MaybeHas(before, m, isUpper, layer, n);
      ExtendedHas(before, m, isUpper, layer, n);
      if FindIn(layer, n).Some? {
        assert FindIn(layer, n).value in layer;
      }
    }
  }

  lemma MaybeFound(before: Entries, m: Mount, isUpper: bool, layer: seq<DirEnt>)
    requires ListingOk(layer)
    ensures forall n | n in MaybeWhiteouts(before, m, isUpper, layer) :: FindIn(layer, n).Some? && n in Added(before, m, isUpper, layer)
  {
    forall n | n in MaybeWhiteouts(before, m, isUpper, layer)
      ensures FindIn(layer, n).Some? && n in Added(before, m, isUpper, layer)
    {
      AddedHas(before, m, isUpper, layer, n);
      MaybeHas(before, m, isUpper, layer, n);
    }
  }

  /** struct ovl_readdir_data, for a merged directory. In the list, the entries moved in front of the rest while the
      lowest layer is read are kept apart in middle. */
  class MergeReader {
    const mount: Mount
    var isUpper: bool
    var isLowest: bool
    var root: Tree
    var list: seq<string>
    var middle: seq<string>
    var entries: map<string, CacheEntry>
    var firstMaybeWhiteout: seq<string>

    constructor (mount: Mount)
      ensures this.mount == mount && root == Leaf && list == [] && middle == [] && entries == map[] && !isLowest
    {
      this.mount := mount;
      isUpper, isLowest, root, list, middle, entries, firstMaybeWhiteout := false, false, Leaf, [], [], map[], [];
    }

    /** The tree holds the names of the list, until the lowest layer is read. */
    ghost predicate Valid()
      reads this
    {
      && Sorted(Keys(root))
      && (!isLowest ==> middle == [] && Elems(Keys(root)) == Elems(list))
      && entries.Keys == Elems(list) + Elems(middle)
    }

    /** ovl_cache_entry_new */
    method NewEntry(r: DirEnt)
      modifies this`entries, this`firstMaybeWhiteout
      ensures entries == old(entries)[r.name := Unmarked(mount, isUpper, r)]
      ensures firstMaybeWhiteout == (if r.dtype.Chr? then [r.name] else []) + old(firstMaybeWhiteout)
    {
      entries := entries[r.name := CacheEntry(r.dtype, r.ino, if CalcDIno(mount, isUpper, r.name) then 0 else r.ino, isUpper, false)];
      if r.dtype == Chr {
        firstMaybeWhiteout := [r.name] + firstMaybeWhiteout;
      }
    }

    /** ovl_cache_entry_add_rb */
    method AddRb(r: DirEnt)
      requires Valid() && !isLowest
      modifies this`entries, this`firstMaybeWhiteout, this`list, this`root
      ensures Valid()
      ensures list == if r.name in old(list) then old(list) else old(list) + [r.name]
      ensures entries == AddOne(old(entries), mount, isUpper, r)
      ensures firstMaybeWhiteout == (if r.name !in old(entries) && r.dtype.Chr? then [r.name] else []) + old(firstMaybeWhiteout)
    {
      var found, link := FindLink(root, r.name);
      assert found <==> r.name in Elems(Keys(root));
      if found {
        return;
      }
      NewEntry(r);
      assert Elems(list + [r.name]) == Elems(list) + {r.name};
      assert Elems(Keys(LinkNode(root, link, r.name))) == Elems(Keys(root)) + {r.name};
      list := list + [r.name];
      root := Insert(root, link, r.name);
    }

    /** ovl_fill_lowest: list_move_tail for an entry that is there, list_add_tail for a new one. */
    method FillLowest(r: DirEnt)
      requires Valid() && isLowest && r.name !in middle
      requires Elems(Keys(root)) - Elems(middle) == Elems(list)
      modifies this`entries, this`firstMaybeWhiteout, this`list, this`middle
      ensures Valid()
      ensures middle == old(middle) + [r.name] && list == Filter(old(list), {r.name})
      ensures entries == AddOne(old(entries), mount, isUpper, r)
      ensures firstMaybeWhiteout == (if r.name !in old(entries) && r.dtype.Chr? then [r.name] else []) + old(firstMaybeWhiteout)
    {
      var found := Find(root, r.name);
      forall n ensures n in Filter(list, {r.name}) <==> n in list && n != r.name {
        FilterHas(list, {r.name}, n);
      }
      assert Elems(middle + [r.name]) == Elems(middle) + {r.name};
      assert Elems(Filter(list, {r.name})) == Elems(list) - {r.name};
      if found {
        list := Filter(list, {r.name});
      } else {
        FilterNothing(list, {r.name});
        NewEntry(r);
      }
      middle := middle + [r.name];
    }

    /** ovl_check_whiteouts: dir is what lookups in the real directory find. */
    method CheckWhiteouts(dir: seq<DirEnt>)
      requires Valid() && forall n | n in firstMaybeWhiteout :: n in entries && FindIn(dir, n).Some?
      modifies this`entries, this`firstMaybeWhiteout
      ensures Valid() && firstMaybeWhiteout == [] && entries.Keys == old(entries).Keys
      ensures forall n | n in entries ::
        entries[n] == if n in old(firstMaybeWhiteout) then old(entries)[n].(isWhiteout := FindIn(dir, n).value.whiteout) else old(entries)[n]
    {
      ghost var done: set<string> := {};
      while firstMaybeWhiteout != []
        invariant Valid() && entries.Keys == old(entries).Keys
        invariant forall n | n in firstMaybeWhiteout :: n in entries && FindIn(dir, n).Some?
        invariant forall n :: n in old(firstMaybeWhiteout) <==> n in firstMaybeWhiteout || n in done
        invariant forall n | n in entries ::
          entries[n] == if n in done then old(entries)[n].(isWhiteout := FindIn(dir, n).value.whiteout) else old(entries)[n]
        decreases |firstMaybeWhiteout|
      {
        var p := firstMaybeWhiteout[0];
        firstMaybeWhiteout := firstMaybeWhiteout[1..];
        entries := entries[p := entries[p].(isWhiteout := FindIn(dir, p).value.whiteout)];
        done := done + {p};
      }
    }

    /** ovl_dir_read for a layer that is not the lowest. */
    method ReadUpperLayer(layer: seq<DirEnt>)
      requires Valid() && !isLowest && ListingOk(layer)
      modifies this`entries, this`firstMaybeWhiteout, this`list, this`root
      ensures Valid()
      ensures list == AddNew(old(list), layer)
      ensures entries == Extended(old(entries), mount, isUpper, layer)
    {
      ghost var before := entries;
      ListLayer(layer);
      MarkWhiteouts(layer, before);
    }

    /** The part of ovl_dir_read that goes through the layer's listing. */
    method ListLayer(layer: seq<DirEnt>)
      requires Valid() && !isLowest
      modifies this`entries, this`firstMaybeWhiteout, this`list, this`root
      ensures Valid()
      ensures list == AddNew(old(list), layer)
      ensures entries == Added(old(entries), mount, isUpper, layer)
      ensures firstMaybeWhiteout == MaybeWhiteouts(old(entries), mount, isUpper, layer)
    {
      firstMaybeWhiteout := [];
      ghost var list0, before := list, entries;
      var i := 0;
      while i < |layer|
        invariant 0 <= i <= |layer| && Valid()
        invariant list == AddNew(list0, layer[..i])
        invariant entries == Added(before, mount, isUpper, layer[..i])
        invariant firstMaybeWhiteout == MaybeWhiteouts(before, mount, isUpper, layer[..i])
      {
        AddedNext(before, mount, isUpper, layer, i);
        AddNewNext(list0, layer, i);
        AddRb(layer[i]);
        i := i + 1;
      }
      assert layer[..i] == layer;
    }

    /** The part of ovl_dir_read after the layer has been listed. */
    method MarkWhiteouts(layer: seq<DirEnt>, ghost before: Entries)
      requires Valid() && ListingOk(layer)
      requires entries == Added(before, mount, isUpper, layer)
      requires firstMaybeWhiteout == MaybeWhiteouts(before, mount, isUpper, layer)
      modifies this`entries, this`firstMaybeWhiteout
      ensures Valid()
      ensures entries == Extended(before, mount, isUpper, layer)
    {
      MaybeFound(before, mount, isUpper, layer);
      if firstMaybeWhiteout != [] {
        CheckWhiteouts(layer);
      }
      MarkedIsExtended(before, mount, isUpper, layer, entries);
    }

    /** ovl_dir_read for the lowest layer. */
    method ReadLowestLayer(layer: seq<DirEnt>)
      requires Valid() && !isLowest && ListingOk(layer)
      modifies this`entries, this`firstMaybeWhiteout, this`list, this`middle, this`isLowest
      ensures list == NamesOf(layer) + Filter(old(list), NameSet(layer)) && middle == []
      ensures entries == Extended(old(entries), mount, isUpper, layer)
    {
      isLowest, firstMaybeWhiteout := true, [];
      ghost var list0, before := list, entries;
      FilterNothing(list, NameSet(layer[..0]));
      var i := 0;
      while i < |layer|
        invariant 0 <= i <= |layer| && Valid() && isLowest
        invariant middle == NamesOf(layer[..i]) && list == Filter(list0, NameSet(layer[..i]))
        invariant Elems(Keys(root)) == Elems(list0)
        invariant entries == Added(before, mount, isUpper, layer[..i])
        invariant firstMaybeWhiteout == MaybeWhiteouts(before, mount, isUpper, layer[..i])
      {
        LowestStep(layer, i, list0);
        AddedNext(before, mount, isUpper, layer, i);
        FillLowest(layer[i]);
        i := i + 1;
      }
      assert layer[..i] == layer;
      MarkWhiteouts(layer, before);
      list, middle := middle + list, [];
    }

    /** ovl_dir_read_merged: layers holds the listings of the upper directory, if there is one, and of the lower ones. */
    method ReadMerged(layers: seq<seq<DirEnt>>, hasUpper: bool)
      requires root == Leaf && list == [] && middle == [] && entries == map[] && !isLowest
      requires layers != [] && ListingsOk(layers)
      modifies this
      ensures list == MergedNames(layers)
      ensures entries == MergedEntries(mount, hasUpper, layers)
    {
      var idx := 0;
      while idx < |layers| - 1
        invariant 0 <= idx < |layers| && Valid() && !isLowest
        invariant list == Collect(layers[..idx])
        invariant entries == MergedEntries(mount, hasUpper, layers[..idx])
      {
        isUpper := hasUpper && idx == 0;
        MergedNext(mount, hasUpper, layers, idx);
        ReadUpperLayer(layers[idx]);
        idx := idx + 1;
      }
      isUpper := hasUpper && idx == 0;
      MergedNext(mount, hasUpper, layers, idx);
      ReadLowestLayer(layers[idx]);
    }
  }

  lemma MergedNext(m: Mount, hasUpper: bool, layers: seq<seq<DirEnt>>, idx: nat)
    requires idx < |layers|
    ensures Collect(layers[..idx + 1]) == AddNew(Collect(layers[..idx]), layers[idx])
    ensures MergedEntries(m, hasUpper, layers[..idx + 1]) ==
      Extended(MergedEntries(m, hasUpper, layers[..idx]), m, hasUpper && idx == 0, layers[idx])
    ensures idx == |layers| - 1 ==> layers[..idx + 1] == layers
  {
    assert layers[..idx + 1][..idx] == layers[..idx];
  }

  lemma AddNewNext(list: seq<string>, layer: seq<DirEnt>, i: nat)
    requires i < |layer|
    ensures AddNew(list, layer[..i + 1]) ==
      var sofar := AddNew(list, layer[..i]);
      if layer[i].name in sofar then sofar else sofar + [layer[i].name]
  {
    assert layer[..i + 1][..i] == layer[..i];
  }

  lemma LowestStep(layer: seq<DirEnt>, i: nat, list0: seq<string>)
    requires ListingOk(layer) && i < |layer|
    ensures NamesOf(layer[..i + 1]) == NamesOf(layer[..i]) + [layer[i].name]
    ensures NameSet(layer[..i + 1]) == NameSet(layer[..i]) + {layer[i].name}
    ensures Filter(Filter(list0, NameSet(layer[..i])), {layer[i].name}) == Filter(list0, NameSet(layer[..i + 1]))
    ensures layer[i].name !in NamesOf(layer[..i])
    ensures Elems(list0) - Elems(NamesOf(layer[..i])) == Elems(Filter(list0, NameSet(layer[..i])))
  {
    assert layer[..i + 1] == layer[..i] + [layer[i]];
    FilterTwice(list0, NameSet(layer[..i]), {layer[i].name});
    assert NameSet(layer[..i + 1]) == NameSet(layer[..i]) + {layer[i].name};
    forall n ensures n in list0 && n !in NamesOf(layer[..i]) <==> n in Filter(list0, NameSet(layer[..i])) {
      FilterHas(list0, NameSet(layer[..i]), n);
      InNames(layer[..i], n);
    }
  }
}
