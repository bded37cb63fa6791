/** What a merged directory listing should be, by definition: the topmost layer's entry for each name, the names of
    the lowest layer first. */
module MergedList {
  import opened Paths
  import opened Layers
  import opened MergedView

  datatype DType = Chr | Directory | Other

  /** One entry that a real directory lists. */
  datatype DirEnt = DirEnt(name: string, ino: nat, dtype: DType, whiteout: bool)

  predicate IsDot(n: string) {
    n == "." || n == ".."
  }

  /** A real directory lists each name once, and its whiteouts as character devices. */
  ghost predicate ListingOk(layer: seq<DirEnt>) {
    && (forall i, j | 0 <= i < j < |layer| :: layer[i].name != layer[j].name)
    && forall i | 0 <= i < |layer| :: (layer[i].whiteout ==> layer[i].dtype.Chr?) && (IsDot(layer[i].name) ==> layer[i].dtype.Directory?)
  }

  ghost predicate ListingsOk(layers: seq<seq<DirEnt>>) {
    forall i | 0 <= i < |layers| :: ListingOk(layers[i])
  }

  function FindIn(layer: seq<DirEnt>, n: string): (r: Option<DirEnt>)
    ensures r.Some? ==> r.value in layer && r.value.name == n
    ensures r.None? ==> forall i | 0 <= i < |layer| :: layer[i].name != n
  {
    if layer == [] then None
    else if layer[0].name == n then Some(layer[0])
    else FindIn(layer[1..], n)
  }

  /** The topmost entry for a name, and its layer. */
  datatype Hit = Hit(ent: DirEnt, level: nat)

  function Top(layers: seq<seq<DirEnt>>, n: string): (h: Option<Hit>)
    ensures h.Some? ==> h.value.level < |layers| && FindIn(layers[h.value.level], n) == Some(h.value.ent)
    ensures h.Some? ==> forall i | 0 <= i < h.value.level :: FindIn(layers[i], n).None?
    ensures h.None? ==> forall i | 0 <= i < |layers| :: FindIn(layers[i], n).None?
  {
    if layers == [] then None
    else if FindIn(layers[0], n).Some? then Some(Hit(FindIn(layers[0], n).value, 0))
    else
      match Top(layers[1..], n)
      case None => None
      case Some(h) => Some(Hit(h.ent, h.level + 1))
  }

  lemma {:induction false} TopAppend(layers: seq<seq<DirEnt>>, layer: seq<DirEnt>, n: string)
    ensures Top(layers + [layer], n) ==
      if Top(layers, n).Some? then Top(layers, n)
      else if FindIn(layer, n).Some? then Some(Hit(FindIn(layer, n).value, |layers|)) else None
  {
    if layers == [] {
      assert layers + [layer] == [layer];
      assert [layer][1..] == [];
    } else {
      assert (layers + [layer])[1..] == layers[1..] + [layer];
      TopAppend(layers[1..], layer, n);
    }
  }

  // ---------- order ----------

  function NamesOf(layer: seq<DirEnt>): (s: seq<string>)
    ensures |s| == |layer| && forall i | 0 <= i < |s| :: s[i] == layer[i].name
  {
    seq(|layer|, i requires 0 <= i < |layer| => layer[i].name)
  }

  /** The new names of a layer go to the end, in the layer's order. */
  function AddNew(list: seq<string>, layer: seq<DirEnt>): seq<string>
    decreases |layer|
  {
    if layer == [] then list
    else
      var last := layer[|layer| - 1].name;
      var before := AddNew(list, layer[..|layer| - 1]);
      if last in before then before else before + [last]
  }

  function Collect(layers: seq<seq<DirEnt>>): seq<string> {
    if layers == [] then [] else AddNew(Collect(layers[..|layers| - 1]), layers[|layers| - 1])
  }

  function Filter(list: seq<string>, drop: set<string>): seq<string> {
    if list == [] then []
    else
      var rest := Filter(list[..|list| - 1], drop);
      if list[|list| - 1] in drop then rest else rest + [list[|list| - 1]]
  }

  function NameSet(layer: seq<DirEnt>): set<string> {
    set r | r in layer :: r.name
  }

  /** The names of the lowest layer in their own order, then the others in the order in which they first appear. */
  function MergedNames(layers: seq<seq<DirEnt>>): seq<string>
    requires layers != []
  {
    var lowest := layers[|layers| - 1];
    NamesOf(lowest) + Filter(Collect(layers[..|layers| - 1]), NameSet(lowest))
  }

  ghost predicate Unique(s: seq<string>) {
    forall i, j | 0 <= i < j < |s| :: s[i] != s[j]
  }

  lemma {:induction false} FilterHas(list: seq<string>, drop: set<string>, n: string)
    ensures n in Filter(list, drop) <==> n in list && n !in drop
    decreases |list|
  {
    if list != [] {
      FilterHas(list[..|list| - 1], drop, n);
      assert list == list[..|list| - 1] + [list[|list| - 1]];
    }
  }

  lemma {:induction false} FilterUnique(list: seq<string>, drop: set<string>)
    requires Unique(list)
    ensures Unique(Filter(list, drop))
    decreases |list|
  {
    if list != [] {
      FilterUnique(list[..|list| - 1], drop);
      FilterHas(list[..|list| - 1], drop, list[|list| - 1]);
    }
  }

  lemma {:induction false} FilterTwice(list: seq<string>, a: set<string>, b: set<string>)
    ensures Filter(Filter(list, a), b) == Filter(list, a + b)
    decreases |list|
  {
    if list != [] {
      FilterTwice(list[..|list| - 1], a, b);
      var rest := Filter(list[..|list| - 1], a);
      assert (rest + [list[|list| - 1]])[..|rest|] == rest;
    }
  }

  lemma {:induction false} FilterNothing(list: seq<string>, drop: set<string>)
    requires forall n | n in list :: n !in drop
    ensures Filter(list, drop) == list
    decreases |list|
  {
    if list != [] {
      FilterNothing(list[..|list| - 1], drop);
      assert list == list[..|list| - 1] + [list[|list| - 1]];
    }
  }

  lemma {:induction false} AddNewHas(list: seq<string>, layer: seq<DirEnt>, n: string)
    requires Unique(list)
    ensures n in AddNew(list, layer) <==> n in list || FindIn(layer, n).Some?
    ensures Unique(AddNew(list, layer))
    decreases |layer|
  {
    if layer != [] {
      var init, last := layer[..|layer| - 1], layer[|layer| - 1];
      AddNewHas(list, init, n);
      assert layer == init + [last];
      assert FindIn(layer, n).Some? <==> FindIn(init, n).Some? || last.name == n by {
        if FindIn(init, n).Some? {
          assert FindIn(init, n).value in layer;
        }
        assert last in layer;
      }
    }
  }

  lemma {:induction false} CollectHas(layers: seq<seq<DirEnt>>, n: string)
    ensures n in Collect(layers) <==> Top(layers, n).Some?
    ensures Unique(Collect(layers))
    decreases |layers|
  {
    if layers != [] {
      var init, last := layers[..|layers| - 1], layers[|layers| - 1];
      CollectHas(init, n);
      AddNewHas(Collect(init), last, n);
      assert layers == init + [last];
      TopAppend(init, last, n);
    }
  }

  /** The list has each name once, and exactly the names that some layer lists. */
  lemma MergedNamesRight(layers: seq<seq<DirEnt>>, n: string)
    requires layers != [] && ListingsOk(layers)
    ensures Unique(MergedNames(layers))
    ensures n in MergedNames(layers) <==> Top(layers, n).Some?
  {
    var init, lowest := layers[..|layers| - 1], layers[|layers| - 1];
    CollectHas(init, n);
    FilterHas(Collect(init), NameSet(lowest), n);
    assert layers == init + [lowest];
    TopAppend(init, lowest, n);
    InNames(lowest, n);
    MergedNamesUnique(init, lowest);
  }

  lemma MergedNamesUnique(init: seq<seq<DirEnt>>, lowest: seq<DirEnt>)
    requires ListingOk(lowest)
    ensures Unique(NamesOf(lowest) + Filter(Collect(init), NameSet(lowest)))
  {
    var rest := Filter(Collect(init), NameSet(lowest));
    CollectHas(init, "");
    FilterUnique(Collect(init), NameSet(lowest));
    forall i | 0 <= i < |rest| ensures rest[i] !in NamesOf(lowest) {
      FilterHas(Collect(init), NameSet(lowest), rest[i]);
      InNames(lowest, rest[i]);
    }
    UniqueConcat(NamesOf(lowest), rest);
  }

  lemma UniqueConcat(a: seq<string>, b: seq<string>)
    requires Unique(a) && Unique(b) && forall i | 0 <= i < |b| :: b[i] !in a
    ensures Unique(a + b)
  {
  }

  lemma InNames(layer: seq<DirEnt>, n: string)
    ensures n in NamesOf(layer) <==> FindIn(layer, n).Some?
    ensures n in NameSet(layer) <==> FindIn(layer, n).Some?
  {
    if FindIn(layer, n).Some? {
      var k :| 0 <= k < |layer| && layer[k] == FindIn(layer, n).value;
      assert NamesOf(layer)[k] == n;
    }
    if n in NameSet(layer) {
      var r :| r in layer && r.name == n;
    }
  }

  /** The offset of a name of the lowest layer is where that layer lists it, and nowhere else, whatever the layers above. */
  lemma LowestOffsets(layers: seq<seq<DirEnt>>, i: nat, offset: nat)
    requires layers != [] && ListingsOk(layers) && i < |layers[|layers| - 1]| && offset < |MergedNames(layers)|
    ensures MergedNames(layers)[offset] == layers[|layers| - 1][i].name <==> offset == i
  {
    MergedNamesRight(layers, "");
    assert MergedNames(layers)[i] == layers[|layers| - 1][i].name;
  }

  // ---------- agreement with lookup ----------

  function DirsOf(e: Entry): seq<Node>
    requires e.Entry?
  {
    (if e.UpperDir() then [e.upper.value] else []) + LowerNodes(e.lower)
  }

  function LowerNodes(lower: seq<LPath>): seq<Node> {
    if lower == [] then [] else [lower[0].node] + LowerNodes(lower[1..])
  }

  /** The listing of a real directory. */
  ghost predicate Lists(layer: seq<DirEnt>, dir: Node) {
    && ListingOk(layer) && dir.Dir?
    && forall n: string | !IsDot(n) ::
         && (n in dir.kids <==> FindIn(layer, n).Some?)
         && (n in dir.kids ==> (FindIn(layer, n).value.whiteout <==> dir.kids[n].Whiteout?))
  }

  ghost predicate ListsAll(layers: seq<seq<DirEnt>>, dirs: seq<Node>) {
    |layers| == |dirs| && forall i | 0 <= i < |layers| :: Lists(layers[i], dirs[i])
  }

  lemma {:induction false} TopIsTopLower(layers: seq<seq<DirEnt>>, lower: seq<LPath>, n: string)
    requires ListsAll(layers, LowerNodes(lower)) && !IsDot(n)
    ensures Top(layers, n).Some? <==> TopLower(lower, n).Some?
    ensures Top(layers, n).Some? ==> (Top(layers, n).value.ent.whiteout <==> TopLower(lower, n).value.Whiteout?)
    decreases |lower|
  {
    if lower != [] {
      assert Lists(layers[0], LowerNodes(lower)[0]);
      assert LowerNodes(lower)[1..] == LowerNodes(lower[1..]);
      assert forall i | 0 <= i < |layers| - 1 :: layers[1..][i] == layers[i + 1] && LowerNodes(lower[1..])[i] == LowerNodes(lower)[i + 1];
      TopIsTopLower(layers[1..], lower[1..], n);
    }
  }

  lemma TopIsTopmost(layers: seq<seq<DirEnt>>, e: Entry, n: string)
    requires e.Entry? && e.IsDir() && ListsAll(layers, DirsOf(e)) && !IsDot(n)
    ensures Top(layers, n).Some? <==> Topmost(e, n).Some?
    ensures Top(layers, n).Some? ==> (Top(layers, n).value.ent.whiteout <==> Topmost(e, n).value.Whiteout?)
  {
    if e.UpperDir() {
      assert Lists(layers[0], DirsOf(e)[0]);
      assert forall i | 0 <= i < |layers| - 1 :: layers[1..][i] == layers[i + 1] && LowerNodes(e.lower)[i] == DirsOf(e)[i + 1];
      TopIsTopLower(layers[1..], e.lower, n);
    } else {
      assert DirsOf(e) == LowerNodes(e.lower);
      TopIsTopLower(layers, e.lower, n);
    }
  }

  predicate Shown(layers: seq<seq<DirEnt>>, n: string) {
    Top(layers, n).Some? && !Top(layers, n).value.ent.whiteout
  }

  /** For every stack of layers, a merged listing shows a name iff ovl_lookup of it through the same stack is positive;
      a lookup that ends in an error counts as not negative. */
  lemma ListingAgreesWithLookup(roots: seq<LPath>, e: Entry, layers: seq<seq<DirEnt>>, n: string, follow: bool)
    requires RootsOk(roots) && EntryOk(e, |roots|) && e.Entry? && e.IsDir()
    requires ListsAll(layers, DirsOf(e)) && !IsDot(n)
    ensures Shown(layers, n) <==> !Lookup(roots, e, n, follow).IsNegative()
  {
    TopIsTopmost(layers, e, n);
    IncreasingFits(e.lower, 1, |roots|);
    assert e.lower[0..] == e.lower;
    LowerLoopShows(roots, e.lower, 0, StartLook(n, !follow && |e.lower| == 0), n, follow);
  }
}
