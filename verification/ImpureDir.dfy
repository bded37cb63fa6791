/** Inode numbers in the listing of an impure directory, which holds copied up files: only the numbers that differ from
    the real ones are kept, in a search tree. */
module ImpureDir {
  import opened Paths
  import opened NameTree
  import opened MergedList
  import opened InodeMap
  import opened Readdir

  /** What looking an entry up in the overlay gives; stat may fail on it. */
  datatype LookedUp = Missing | Failed | This(o: Object, statFails: bool)

  /** What lookups and stat depend on. */
  datatype Context = Context(c: Config, f: Features, lookup: map<string, LookedUp>) {
    predicate Maps() {
      c.sameFs || c.xinoBits > 0
    }

    function Find(name: string): LookedUp {
      if name in lookup then lookup[name] else Missing
    }
  }

  /** ovl_cache_update_ino; no result where it fails. */
  function UpdateIno(x: Context, ino: nat, found: LookedUp): Option<nat>
    requires x.c.xinoBits <= 32
  {
    if !x.Maps() then Some(ino)
    else
      match found
      case Missing => Some(ino)
      case Failed => None
      case This(o, statFails) =>
        if IsOrigin(o) then (if statFails then None else Stat(x.c, x.f, o).1)
        else if x.c.xinoBits > 0 && o.at.OnlyLower? then Some(RemapLowerIno(ino, x.c.xinoBits, o.at.lower.fsid))
        else Some(ino)
  }

  /** The entry with this real number, from the upper layer or a lower one, is what the lookup found, and stat can say so. */
  predicate Coherent(x: Context, isUpper: bool, ino: nat, found: LookedUp) {
    && found.This? && KeyOk(x.f, found.o) && StatFrom(x.f, found.o).0 <= x.c.numLowerFs
    && (IsOrigin(found.o) ==> !found.statFails)
    && if isUpper then found.o.at.OnUpper? && found.o.at.ino == ino else found.o.at.OnlyLower? && found.o.at.lower.ino == ino
  }

  /** The number found for an entry is the one that stat reports: the mapped number of the inode that stat starts from, for
      a copied up file that of its lower origin. */
  lemma ListedIsStat(x: Context, isUpper: bool, ino: nat, found: LookedUp)
    requires x.c.Ok() && x.Maps() && Coherent(x, isUpper, ino, found)
    ensures UpdateIno(x, ino, found) == Stat(x.c, x.f, found.o).1
    ensures var from := StatFrom(x.f, found.o); UpdateIno(x, ino, found) == Some(MapDevIno(x.c, from.0, from.1).1)
  {
    var from := StatFrom(x.f, found.o);
    StatNumber(x.c, x.f, found.o);
    NumbersAgree(x.c, from.0, from.1);
  }

  /** Where numbers cannot be mapped, a file is listed with its real number, which is stat's iff it is no copy or has the
      number of its origin. */
  lemma ListedUnmapped(x: Context, isUpper: bool, ino: nat, found: LookedUp)
    requires x.c.Ok() && !x.Maps() && Coherent(x, isUpper, ino, found) && !found.o.isDir
    ensures UpdateIno(x, ino, found) == Stat(x.c, x.f, found.o).1 <==> StatFrom(x.f, found.o).1 == ino
  {
  }

  /** A merged listing keeps the real number of an entry, instead of looking it up, only where that gives the same. Lower
      entries are no copies, and an upper directory without the impure flag holds none either. */
  lemma NativeIsRight(x: Context, m: Mount, isUpper: bool, r: DirEnt, found: LookedUp)
    requires x.c.xinoBits <= 32 && m.xinoBits == x.c.xinoBits && !CalcDIno(m, isUpper, r.name)
    requires found.This? && (found.o.at.OnUpper? <==> isUpper)
    requires IsOrigin(found.o) ==> m.impure || IsDot(r.name)
    ensures UpdateIno(x, r.ino, found) == Some(r.ino)
  {
  }

  /** The number that ovl_iterate emits for an entry of a merged listing. */
  function EmittedIno(x: Context, entry: CacheEntry, found: LookedUp): Option<nat>
    requires x.c.xinoBits <= 32
  {
    if entry.ino == 0 then UpdateIno(x, entry.realIno, found) else Some(entry.ino)
  }

  /** So an entry of a merged listing has stat's number, whether it was looked up or not. */
  lemma MergedNumber(x: Context, m: Mount, isUpper: bool, r: DirEnt, found: LookedUp)
    requires x.c.Ok() && x.Maps() && m.xinoBits == x.c.xinoBits && Coherent(x, isUpper, r.ino, found)
    requires IsOrigin(found.o) ==> m.impure || IsDot(r.name)
    ensures EmittedIno(x, EntryFor(m, isUpper, r), found) == Stat(x.c, x.f, found.o).1
  {
    ListedIsStat(x, isUpper, r.ino, found);
    if !CalcDIno(m, isUpper, r.name) {
      NativeIsRight(x, m, isUpper, r, found);
    }
  }

  /** The number each name should be listed with. */
  function Wanted(x: Context, r: DirEnt): Option<nat>
    requires x.c.xinoBits <= 32
  {
    UpdateIno(x, r.ino, x.Find(r.name))
  }

  /** Dot entries are not looked up. */
  function NewIno(x: Context, r: DirEnt): Option<nat>
    requires x.c.xinoBits <= 32
  {
    if IsDot(r.name) then Some(r.ino) else Wanted(x, r)
  }

  /** The numbers that differ. */
  function Changed(x: Context, listing: seq<DirEnt>): map<string, nat>
    requires x.c.xinoBits <= 32
    decreases |listing|
  {
    if listing == [] then map[]
    else
      var before, r := Changed(x, listing[..|listing| - 1]), listing[|listing| - 1];
      var ino := NewIno(x, r);
      if ino.Some? && ino.value != r.ino then before[r.name := ino.value] else before
  }

  lemma {:induction false} ChangedHas(x: Context, listing: seq<DirEnt>, n: string)
    requires x.c.xinoBits <= 32
    ensures n in Changed(x, listing) ==> exists k :: 0 <= k < |listing| && listing[k].name == n
    decreases |listing|
  {
    if listing != [] {
      var k := |listing| - 1;
      ChangedHas(x, listing[..k], n);
      if n in Changed(x, listing[..k]) {
        var j :| 0 <= j < k && listing[..k][j].name == n;
        assert listing[j].name == n;
      }
    }
  }

  /** Dropping the unchanged ones loses nothing: a name that is not kept has its real number. */
  lemma {:induction false} ChangedRight(x: Context, listing: seq<DirEnt>, i: nat)
    requires x.c.xinoBits <= 32 && ListingOk(listing) && i < |listing| && NewIno(x, listing[i]).Some?
    ensures var inos, r := Changed(x, listing), listing[i];
      NewIno(x, r).value == if r.name in inos then inos[r.name] else r.ino
    decreases |listing|
  {
    var k := |listing| - 1;
    assert ListingOk(listing[..k]);
    if i < k {
      ChangedRight(x, listing[..k], i);
    } else {
      ChangedHas(x, listing[..k], listing[k].name);
    }
  }

  lemma ChangedNext(x: Context, listing: seq<DirEnt>, i: nat)
    requires x.c.xinoBits <= 32 && ListingOk(listing) && i < |listing|
    ensures var before, ino := Changed(x, listing[..i]), NewIno(x, listing[i]);
      && Changed(x, listing[..i + 1]) == (if ino.Some? && ino.value != listing[i].ino then before[listing[i].name := ino.value] else before)
      && listing[i].name !in before
  {
    assert listing[..i + 1][..i] == listing[..i];
    ChangedHas(x, listing[..i], listing[i].name);
  }

  class ImpureCache {
    var root: Tree
    var inos: map<string, nat>

    ghost predicate Valid()
      reads this
    {
      Sorted(Keys(root)) && inos.Keys == Elems(Keys(root))
    }

    constructor ()
      ensures Valid() && inos == map[]
    {
      root, inos := Leaf, map[];
    }

    /** ovl_dir_read_impure: no name is found twice. */
    method ReadImpure(x: Context, listing: seq<DirEnt>) returns (ok: bool)
      requires Valid() && inos == map[] && x.c.xinoBits <= 32 && ListingOk(listing)
      modifies this
      ensures Valid()
      ensures ok <==> forall k | 0 <= k < |listing| :: NewIno(x, listing[k]).Some?
      ensures ok ==> inos == Changed(x, listing)
    {
      var i := 0;
      while i < |listing|
        invariant 0 <= i <= |listing| && Valid() && inos == Changed(x, listing[..i])
        invariant forall k | 0 <= k < i :: NewIno(x, listing[k]).Some?
      {
        var p := listing[i];
        ChangedNext(x, listing, i);
        var ino := p.ino;
        if p.name != "." && p.name != ".." {
          var updated := Wanted(x, p);
          if updated.None? {
            assert NewIno(x, listing[i]).None?;
            return false;
          }
          ino := updated.value;
        }
        if ino != p.ino {
          Keep(p.name, ino);
        }
        i := i + 1;
      }
      assert listing[..i] == listing;
      ok := true;
    }

    /** A changed number goes into the tree. */
    method Keep(name: string, ino: nat)
      requires Valid() && name !in inos
      modifies this
      ensures Valid() && inos == old(inos)[name := ino]
    {
      var found, link := FindLink(root, name);
      assert found <==> name in Elems(Keys(root));
      assert Elems(Keys(LinkNode(root, link, name))) == Elems(Keys(root)) + {name};
      root := Insert(root, link, name);
      inos := inos[name := ino];
    }

    /** ovl_fill_real, with a cache. */
    method FillReal(name: string, ino: nat, parentIno: Option<nat>) returns (r: nat)
      requires Valid()
      ensures r == if parentIno.Some? && name == ".." then parentIno.value else if name in inos then inos[name] else ino
    {
      if parentIno.Some? && name == ".." {
        return parentIno.value;
      }
      var found := Find(root, name);
      assert found <==> name in Elems(Keys(root));
      r := if found then inos[name] else ino;
    }
  }

  /** ovl_iterate_real for an impure directory, which has no lower layer: every name is listed with the number that
      ovl_cache_update_ino finds for it. An empty cache is dropped, and then numbers are remapped as upper ones. */
  method IterateReal(x: Context, listing: seq<DirEnt>, parentIno: Option<nat>) returns (ok: bool, out: seq<nat>)
    requires x.c.Ok() && ListingOk(listing)
    ensures ok <==> forall k | 0 <= k < |listing| :: NewIno(x, listing[k]).Some?
    ensures ok ==> |out| == |listing| && forall k | 0 <= k < |listing| ::
      out[k] == if parentIno.Some? && listing[k].name == ".." then parentIno.value else NewIno(x, listing[k]).value
    ensures ok && x.Maps() ==> forall k | 0 <= k < |listing| && !IsDot(listing[k].name) ::
      var found := x.Find(listing[k].name);
      Coherent(x, true, listing[k].ino, found) ==>
        var from := StatFrom(x.f, found.o);
        out[k] == MapDevIno(x.c, from.0, from.1).1
  {
    var cache := new ImpureCache();
    ok := cache.ReadImpure(x, listing);
    out := [];
    if !ok {
      return;
    }
    var i := 0;
    while i < |listing|
      invariant 0 <= i <= |listing| && |out| == i
      invariant cache.Valid() && cache.inos == Changed(x, listing)
      invariant forall k | 0 <= k < i ::
        out[k] == if parentIno.Some? && listing[k].name == ".." then parentIno.value else NewIno(x, listing[k]).value
    {
      var p := listing[i];
      ChangedRight(x, listing, i);
      var ino;
      if cache.inos == map[] && !(parentIno.Some? && p.name == "..") && x.c.xinoBits > 0 {
        NumbersAgree(x.c, 0, p.ino);
        ino := RemapLowerIno(p.ino, x.c.xinoBits, 0);
      } else {
        ino := cache.FillReal(p.name, p.ino, parentIno);
      }
      out := out + [ino];
      i := i + 1;
    }
    forall k | 0 <= k < |listing| && !IsDot(listing[k].name) && x.Maps() && Coherent(x, true, listing[k].ino, x.Find(listing[k].name))
      ensures var from := StatFrom(x.f, x.Find(listing[k].name).o); out[k] == MapDevIno(x.c, from.0, from.1).1
    {
      ListedIsStat(x, true, listing[k].ino, x.Find(listing[k].name));
    }
  }
}
