/** The merged namespace as a plain tree sees it: what every path shows, and how that depends on the upper tree. */
module MergedView {
  import opened Paths
  import opened Layers
  import opened LayerPaths

  datatype Obs = Absent | Broken | IsFile(id: nat) | IsDirectory

  function Observe(e: Entry): Obs {
    if e.Bad? then Broken
    else if e.IsDir() then IsDirectory
    else if e.upper.Some? then (if e.upper.value.File? then IsFile(e.upper.value.id) else Absent)
    else if e.lower == [] then Absent
    else if e.lower[0].node.File? then IsFile(e.lower[0].node.id)
    else Absent
  }

  /** The lower layers' roots, and whether redirects are followed. */
  datatype Lowers = Lowers(roots: seq<LPath>, follow: bool)

  predicate LayersOk(lo: Lowers) {
    RootsOk(lo.roots)
  }

  lemma RootsIncreasing(roots: seq<LPath>, i: nat)
    requires RootsOk(roots) && i <= |roots|
    ensures IncreasingFrom(roots[i..], i + 1, |roots|)
    decreases |roots| - i
  {
    if i < |roots| {
      RootsIncreasing(roots, i + 1);
      assert roots[i..][1..] == roots[i + 1..];
    }
  }

  function RootEntry(lo: Lowers, upper: Node): (e: Entry)
    requires LayersOk(lo) && upper.Dir?
    ensures EntryOk(e, |lo.roots|)
  {
    RootsIncreasing(lo.roots, 0);
    assert lo.roots[0..] == lo.roots;
    Entry(Some(upper), false, lo.roots)
  }

  function UpperAt(e: Entry, name: string): Option<Node> {
    if e.UpperDir() && name in e.upper.value.kids then Some(e.upper.value.kids[name]) else None
  }

  /** The loop of ovl_lookup over a stack that is in order. */
  function Below(lo: Lowers, s: seq<LPath>, atRoot: bool, d: Look): Stack {
    if RootsOk(lo.roots) && StackOk(s, |lo.roots|) && (atRoot ==> s == lo.roots) && NameFitsStack(d, atRoot)
    then LowerLoop(lo.roots, s, atRoot, 0, d, lo.follow)
    else Ok([])
  }

  function WithUpper(u: Option<Node>, r: Stack): Entry {
    if r.Ok? then Entry(u, false, r.lower) else Bad(r.error)
  }

  function NameLook(lo: Lowers, lower: seq<LPath>, name: string, isDir: bool): Look {
    StartLook(name, !lo.follow && lower == []).(isDir := isDir)
  }

  /** What a name means when the upper directory has u there and the lower stack of the directory is given. */
  function Meet(lo: Lowers, lower: seq<LPath>, name: string, u: Option<Node>): Entry {
    match u
    case None => WithUpper(None, Below(lo, lower, false, NameLook(lo, lower, name, false)))
    case Some(Whiteout) => Entry(None, true, [])
    case Some(File(_)) => Entry(u, false, [])
    case Some(Dir(o, redirect, _, _)) =>
      var d := NameLook(lo, lower, name, true);
      if d.last then Entry(u, false, [])
      else if o then Entry(u, true, [])
      else if redirect.None? then WithUpper(u, Below(lo, lower, false, d))
      else
        match Parse(redirect.value)
        case None => Bad(EINVAL)
        case Some(Rel(r)) => WithUpper(u, Below(lo, lower, false, d.(name := Rel(r), redirected := true)))
        case Some(Abs(cs)) => WithUpper(u, Below(lo, lo.roots, true, d.(name := Abs(cs), redirected := true)))
  }

  /** What one name below a dentry means. */
  function Child(lo: Lowers, e: Entry, name: string): (r: Entry) {
    if e.Bad? then e
    else if !e.IsDir() then NEGATIVE
    else Meet(lo, e.lower, name, UpperAt(e, name))
  }

  /** The upper layer's answer for a directory with a redirect that is read. */
  lemma UpperRedirected(base: Node, name: string)
    requires base.Dir? && name in base.kids && base.kids[name].Dir? && !base.kids[name].isOpaque && base.kids[name].redirect.Some?
    ensures var f := LookupLayer(base, StartLook(name, false));
      var d := StartLook(name, false).(isDir := true, redirected := true);
      var r := Parse(base.kids[name].redirect.value);
      && (r.None? ==> f.Invalid?)
      && (r.Some? ==> f == Found(Some(base.kids[name]), d.(name := r.value)))
  {
    var r := Parse(base.kids[name].redirect.value);
    if r.Some? && r.value.Abs? {
      assert r.value.comps + [] == r.value.comps;
    }
  }

  lemma LookupRedirected(lo: Lowers, e: Entry, name: string)
    requires LayersOk(lo) && EntryOk(e, |lo.roots|) && e.Entry? && e.IsDir()
    requires UpperAt(e, name).Some? && UpperAt(e, name).value.Dir? && UpperAt(e, name).value.redirect.Some?
    requires !UpperAt(e, name).value.isOpaque && (lo.follow || e.lower != [])
    ensures Lookup(lo.roots, e, name, lo.follow) == Child(lo, e, name)
  {
    IncreasingFits(e.lower, 1, |lo.roots|);
    UpperRedirected(e.upper.value, name);
  }

  /** ovl_lookup computes exactly this child, through any layers, and keeps the dentry well formed. */
  lemma LookupIsChild(lo: Lowers, e: Entry, name: string)
    requires LayersOk(lo) && EntryOk(e, |lo.roots|) && e.Entry? && e.IsDir()
    ensures Lookup(lo.roots, e, name, lo.follow) == Child(lo, e, name)
    ensures EntryOk(Child(lo, e, name), |lo.roots|)
  {
    var u := UpperAt(e, name);
    if u.Some? && u.value.Dir? && u.value.redirect.Some? && !u.value.isOpaque && (lo.follow || e.lower != []) {
      LookupRedirected(lo, e, name);
    } else {
      IncreasingFits(e.lower, 1, |lo.roots|);
    }
  }

  // ---------- one name through the lower layers ----------

  /** The loop over the lower layers finds nothing iff the topmost physical entry is missing or a whiteout; an error is
      not nothing. */
  lemma {:induction false} LowerLoopShows(roots: seq<LPath>, s: seq<LPath>, i: nat, d: Look, n: string, follow: bool)
    requires RootsOk(roots) && StackOk(s, |roots|) && i <= |s|
    requires d.name == Rel(n) && !d.stop && !d.isDir && !d.redirected
    ensures LowerLoop(roots, s, false, i, d, follow) == Ok([]) <==> TopLower(s[i..], n).None? || TopLower(s[i..], n).value.Whiteout?
    decreases |s| - i
  {
    if i < |s| {
      assert s[i..][1..] == s[i + 1..];
      if n !in s[i].node.kids {
        LowerLoopShows(roots, s, i + 1, d.(last := LastFlag(follow, s, i, |roots|)), n, follow);
      }
    }
  }

  /** One layer, looking for directories only. */
  lemma LayerNeedDir(base: Node, d: Look, n: string)
    requires base.Dir? && d.name == Rel(n) && !d.isDir && !d.redirected
    ensures var f, g := LookupLayer(base, d), LookupLayer(base, d.(isDir := true));
      && (f.Invalid? ==> g.Invalid?)
      && (f.Found? && f.node.None? ==> g == Found(None, f.look.(isDir := true)) && f.look.name == Rel(n) && !f.look.isDir && !f.look.redirected)
      && (f.Found? && f.node.Some? && f.node.value.Dir? ==> g == f)
  {
  }

  /** Once it finds directories, the loop would have found the same looking for directories only. */
  lemma {:induction false} LowerLoopNeedDir(roots: seq<LPath>, s: seq<LPath>, i: nat, d: Look, n: string, follow: bool)
    requires RootsOk(roots) && StackOk(s, |roots|)
    requires d.name == Rel(n) && !d.isDir && !d.redirected
    ensures var r := LowerLoop(roots, s, false, i, d, follow);
      r.Ok? && AllDirs(r.lower) ==> LowerLoop(roots, s, false, i, d.(isDir := true), follow) == r
    decreases |s| - i
  {
    if !d.stop && i < |s| {
      var d1 := d.(last := LastFlag(follow, s, i, |roots|));
      var f := LookupLayer(s[i].node, d1);
      LayerNeedDir(s[i].node, d1, n);
      if f.Found? && f.node.None? {
        LowerLoopNeedDir(roots, s, i + 1, f.look, n, follow);
      } else if f.Found? {
        FirstFound(roots, s, i, d, follow);
      }
    }
  }

  /** What the loop finds first is the head of its result. */
  lemma FirstFound(roots: seq<LPath>, s: seq<LPath>, i: nat, d: Look, follow: bool)
    requires RootsOk(roots) && StackOk(s, |roots|) && NameFitsStack(d, false) && !d.stop && i < |s|
    requires var f := LookupLayer(s[i].node, d.(last := LastFlag(follow, s, i, |roots|))); f.Found? && f.node.Some?
    ensures var f := LookupLayer(s[i].node, d.(last := LastFlag(follow, s, i, |roots|)));
      var r := LowerLoop(roots, s, false, i, d, follow);
      r.Ok? ==> r.lower != [] && r.lower[0].node == f.node.value
  {
  }

  /** A name that is not in the upper directory. */
  lemma MeetNone(lo: Lowers, lower: seq<LPath>, name: string)
    requires LayersOk(lo) && StackOk(lower, |lo.roots|)
    ensures Meet(lo, lower, name, None).IsNegative() <==> TopLower(lower, name).None? || TopLower(lower, name).value.Whiteout?
  {
    assert lower[0..] == lower;
    LowerLoopShows(lo.roots, lower, 0, NameLook(lo, lower, name, false), name, lo.follow);
  }

  /** A fresh upper directory meets the same lower directories as no upper directory would. */
  lemma MeetFresh(lo: Lowers, lower: seq<LPath>, name: string, made: Node)
    requires LayersOk(lo) && StackOk(lower, |lo.roots|)
    requires made.Dir? && !made.isOpaque && made.redirect.None?
    requires Meet(lo, lower, name, None).Entry? && AllDirs(Meet(lo, lower, name, None).lower)
    ensures Meet(lo, lower, name, Some(made)) == Meet(lo, lower, name, None).(upper := Some(made))
  {
    LowerLoopNeedDir(lo.roots, lower, 0, NameLook(lo, lower, name, false), name, lo.follow);
  }

  // ---------- what the lower layers mean by a name ----------

  /** Meet, told from the layer trees: p is the path under which the directory is searched in the layers. */
  function MeetTrail(lo: Lowers, p: Path, name: string, u: Option<Node>): Entry {
    match u
    case None => WithUpper(None, Trail(lo.roots, 0, p + [name], false))
    case Some(Whiteout) => Entry(None, true, [])
    case Some(File(_)) => Entry(u, false, [])
    case Some(Dir(o, redirect, _, _)) =>
      if o then Entry(u, true, [])
      else if redirect.None? then WithUpper(u, Trail(lo.roots, 0, p + [name], true))
      else
        match Parse(redirect.value)
        case None => Bad(EINVAL)
        case Some(Rel(r)) => WithUpper(u, Trail(lo.roots, 0, p + [r], true))
        case Some(Abs(cs)) => WithUpper(u, Trail(lo.roots, 0, cs, true))
  }

  /** With redirects followed, a name in a directory whose lower stack is the trail of p means what the layers hold on the
      trail of p extended by the name or by the upper directory's redirect. */
  lemma MeetIsTrail(lo: Lowers, lower: seq<LPath>, p: Path, name: string, u: Option<Node>)
    requires LayersOk(lo) && lo.follow && StackOk(lower, |lo.roots|) && Trail(lo.roots, 0, p, true) == Ok(lower)
    ensures Meet(lo, lower, name, u) == MeetTrail(lo, p, name, u)
  {
    assert lower[0..] == lower;
    var d := NameLook(lo, lower, name, u.Some?);
    if u.None? || (u.value.Dir? && u.value.redirect.None?) {
      RelIsTrail(lo.roots, lower, 0, 0, p, true, d, name);
    } else if u.value.Dir? && Parse(u.value.redirect.value).Some? {
      match Parse(u.value.redirect.value).value
      case Rel(r) => RelIsTrail(lo.roots, lower, 0, 0, p, true, d.(name := Rel(r), redirected := true), r);
      case Abs(cs) => LowerLoopIsTrail(lo.roots, 0, d.(name := Abs(cs), redirected := true));
    }
  }

  /** With redirects not followed, a name means what the directory's lower directories hold under it, and an upper directory
      with a redirect has no lower ones, or is an error. */
  lemma MeetByName(lo: Lowers, lower: seq<LPath>, name: string, u: Option<Node>)
    requires LayersOk(lo) && !lo.follow && StackOk(lower, |lo.roots|)
    ensures u.None? ==> Meet(lo, lower, name, u) == WithUpper(u, ByName(lower, 0, name, false))
    ensures u.Some? && u.value.Dir? && !u.value.isOpaque && u.value.redirect.None? ==>
      Meet(lo, lower, name, u) == WithUpper(u, ByName(lower, 0, name, true))
    ensures u.Some? && u.value.Dir? && u.value.redirect.Some? ==>
      var e := Meet(lo, lower, name, u); e.Entry? ==> e.upper == u && e.lower == []
  {
    var d := NameLook(lo, lower, name, u.Some?);
    if u.None? || (u.value.Dir? && u.value.redirect.None?) {
      LowerLoopByName(lo.roots, lower, 0, d, name);
    } else if u.value.Dir? && Parse(u.value.redirect.value).Some? {
      match Parse(u.value.redirect.value).value
      case Rel(r) => RedirectRefused(lo.roots, lower, false, 0, d.(name := Rel(r), redirected := true));
      case Abs(cs) => RedirectRefused(lo.roots, lo.roots, true, 0, d.(name := Abs(cs), redirected := true));
    }
  }

  // ---------- the physical entries behind a directory ----------

  /** The first layer's entry for a name, whiteouts included. */
  function TopLower(lower: seq<LPath>, name: string): Option<Node>
    decreases |lower|
  {
    if lower == [] then None
    else if lower[0].node.Dir? && name in lower[0].node.kids then Some(lower[0].node.kids[name])
    else TopLower(lower[1..], name)
  }

  function Topmost(e: Entry, name: string): Option<Node> {
    if e.Bad? then None
    else if UpperAt(e, name).Some? then UpperAt(e, name)
    else TopLower(e.lower, name)
  }

  /** A name is positive in a directory exactly if the topmost physical entry for it is there and is no
      whiteout. */
  lemma TopmostDecides(lo: Lowers, e: Entry, name: string)
    requires LayersOk(lo) && EntryOk(e, |lo.roots|) && e.Entry? && e.IsDir()
    ensures !Child(lo, e, name).IsNegative() <==> Topmost(e, name).Some? && !Topmost(e, name).value.Whiteout?
  {
    IncreasingFits(e.lower, 1, |lo.roots|);
    MeetNone(lo, e.lower, name);
  }

  /** The names that some layer's listing of the directory contains. */
  function Names(e: Entry): set<string> {
    if e.Bad? then {}
    else (if e.UpperDir() then e.upper.value.kids.Keys else {}) + LowerNames(e.lower)
  }

  function LowerNames(lower: seq<LPath>): set<string>
    decreases |lower|
  {
    if lower == [] then {}
    else (if lower[0].node.Dir? then lower[0].node.kids.Keys else {}) + LowerNames(lower[1..])
  }

  lemma {:induction false} LowerNamesTop(lower: seq<LPath>, name: string)
    ensures name in LowerNames(lower) <==> TopLower(lower, name).Some?
    decreases |lower|
  {
    if lower != [] {
      LowerNamesTop(lower[1..], name);
    }
  }

  /** Every listed name is a whiteout. */
  predicate MergedEmpty(e: Entry) {
    forall n | n in Names(e) :: Topmost(e, n).Some? ==> Topmost(e, n).value.Whiteout?
  }

  lemma MergedEmptyShowsNothing(lo: Lowers, e: Entry, name: string)
    requires LayersOk(lo) && EntryOk(e, |lo.roots|) && e.Entry? && e.IsDir() && MergedEmpty(e)
    ensures Child(lo, e, name).IsNegative()
  {
    LowerNamesTop(e.lower, name);
    TopmostDecides(lo, e, name);
    assert Topmost(e, name).Some? ==> name in Names(e);
  }

  /** The dentry that a path walk from e ends at. */
  function Resolve(lo: Lowers, e: Entry, path: Path): Entry
    decreases |path|
  {
    if path == [] then e else Resolve(lo, Child(lo, e, path[0]), path[1..])
  }

  /** What the merged tree shows at a path. */
  function View(lo: Lowers, upper: Node, path: Path): Obs
    requires LayersOk(lo) && upper.Dir?
  {
    Observe(Resolve(lo, RootEntry(lo, upper), path))
  }

  lemma {:induction false} ResolveConcat(lo: Lowers, e: Entry, a: Path, b: Path)
    ensures Resolve(lo, e, a + b) == Resolve(lo, Resolve(lo, e, a), b)
    decreases |a|
  {
    if a == [] {
      assert a + b == b;
    } else {
      assert (a + b)[1..] == a[1..] + b;
      ResolveConcat(lo, Child(lo, e, a[0]), a[1..], b);
    }
  }

  lemma ResolveLast(lo: Lowers, e: Entry, dir: Path, name: string)
    ensures Resolve(lo, e, dir + [name]) == Child(lo, Resolve(lo, e, dir), name)
  {
    ResolveConcat(lo, e, dir, [name]);
    assert [name][1..] == [];
  }

  /** A path walk keeps dentries well formed. */
  lemma {:induction false} ResolveOk(lo: Lowers, e: Entry, path: Path)
    requires LayersOk(lo) && EntryOk(e, |lo.roots|)
    ensures EntryOk(Resolve(lo, e, path), |lo.roots|)
    decreases |path|
  {
    if path != [] {
      if e.Entry? && e.IsDir() {
        LookupIsChild(lo, e, path[0]);
      }
      ResolveOk(lo, Child(lo, e, path[0]), path[1..]);
    }
  }

  /** Two dentries with the same content: everything below them is the same. */
  predicate SameBelow(a: Entry, b: Entry) {
    if a.Bad? || b.Bad? then a == b
    else
      && a.lower == b.lower
      && (a.IsDir() <==> b.IsDir())
      && (a.UpperDir() <==> b.UpperDir())
      && (a.UpperDir() ==> a.upper.value.kids == b.upper.value.kids)
  }

  lemma ResolveSame(lo: Lowers, a: Entry, b: Entry, path: Path)
    requires SameBelow(a, b) && path != []
    ensures Resolve(lo, a, path) == Resolve(lo, b, path)
  {
    assert Child(lo, a, path[0]) == Child(lo, b, path[0]);
  }

  lemma {:induction false} NegativeBelow(lo: Lowers, e: Entry, path: Path)
    requires e.IsNegative()
    ensures Resolve(lo, e, path).IsNegative()
    decreases |path|
  {
    if path != [] {
      NegativeBelow(lo, Child(lo, e, path[0]), path[1..]);
    }
  }

  lemma {:induction false} BadBelow(lo: Lowers, e: Entry, path: Path)
    requires e.Bad?
    ensures Resolve(lo, e, path) == e
    decreases |path|
  {
    if path != [] {
      BadBelow(lo, e, path[1..]);
    }
  }

  // ---------- changing one name in the upper tree ----------

  function SetKid(kids: map<string, Node>, name: string, v: Option<Node>): map<string, Node> {
    if v.Some? then kids[name := v.value] else kids - {name}
  }

  /** The upper tree has real directories all along this path. */
  predicate HasDir(root: Node, dir: Path)
    decreases |dir|
  {
    root.Dir? && (dir == [] || (dir[0] in root.kids && HasDir(root.kids[dir[0]], dir[1..])))
  }

  function Put(root: Node, dir: Path, name: string, v: Option<Node>): (r: Node)
    requires HasDir(root, dir)
    ensures r.Dir? && r.isOpaque == root.isOpaque && r.redirect == root.redirect && r.origin == root.origin
    ensures HasDir(r, dir)
    decreases |dir|
  {
    if dir == [] then root.(kids := SetKid(root.kids, name, v))
    else root.(kids := root.kids[dir[0] := Put(root.kids[dir[0]], dir[1..], name, v)])
  }

  lemma PrefixCons(c: string, a: Path, b: Path)
    ensures [c] + a <= [c] + b <==> a <= b
  {
    assert ([c] + a)[1..] == a && ([c] + b)[1..] == b;
    if a <= b {
      assert b == a + b[|a|..];
      assert [c] + b == ([c] + a) + b[|a|..];
    }
  }

  /** Lookup reads an upper directory's attributes, not what is in it. */
  lemma MeetSameDir(lo: Lowers, lower: seq<LPath>, name: string, k: Node, k': Node)
    requires k.Dir? && k'.Dir? && k'.isOpaque == k.isOpaque && k'.redirect == k.redirect
    ensures var a, b := Meet(lo, lower, name, Some(k)), Meet(lo, lower, name, Some(k'));
      if a.Entry? then b == a.(upper := Some(k')) && a.upper == Some(k) else b == a
  {
  }

  /** Changing name in directory dir touches no dentry outside dir/name, but for the real directories above it. */
  lemma {:induction false} ResolvePut(lo: Lowers, e: Entry, dir: Path, name: string, v: Option<Node>, path: Path)
    requires e.UpperDir() && HasDir(e.upper.value, dir)
    requires !(dir + [name] <= path)
    ensures var e' := e.(upper := Some(Put(e.upper.value, dir, name, v)));
      var a, b := Resolve(lo, e, path), Resolve(lo, e', path);
      if a.Entry? && path <= dir then
        && a.UpperDir() && HasDir(a.upper.value, dir[|path|..])
        && b == a.(upper := Some(Put(a.upper.value, dir[|path|..], name, v)))
      else b == a
    decreases |path|
  {
    var e' := e.(upper := Some(Put(e.upper.value, dir, name, v)));
    if path == [] {
      assert dir[0..] == dir;
    } else {
      var c := path[0];
      assert path == [c] + path[1..];
      if dir == [] || c != dir[0] {
        assert dir == [] ==> dir + [name] == [name];
        assert Child(lo, e', c) == Child(lo, e, c);
      } else {
        var k := e.upper.value.kids[c];
        var a, b := Child(lo, e, c), Child(lo, e', c);
        MeetSameDir(lo, e.lower, c, k, Put(k, dir[1..], name, v));
        if a.Entry? {
          PrefixCons(c, dir[1..] + [name], path[1..]);
          PrefixCons(c, path[1..], dir[1..]);
          assert dir + [name] == [c] + (dir[1..] + [name]) && dir == [c] + dir[1..];
          ResolvePut(lo, a, dir[1..], name, v, path[1..]);
          assert path <= dir ==> dir[1..][|path[1..]|..] == dir[|path|..];
        } else {
          BadBelow(lo, a, path[1..]);
        }
      }
    }
  }
}
