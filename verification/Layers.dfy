/** Layer trees and the lookup of namei.c, on path components. Metacopy is off, and a failing real lookup is
    not modelled. The code that works on the strings is in LookupCode. */
module Layers {
  import opened Paths

  /** What one real layer holds under a name. The redirect is the raw xattr value. */
  datatype Node =
    | File(id: nat)
    | Whiteout
    | Dir(isOpaque: bool, redirect: Option<string>, origin: bool, kids: map<string, Node>)

  /** A dentry in the layer with this index; the upper layer is 0, the lower ones count from 1. */
  datatype LPath = LPath(idx: nat, node: Node)

  /** struct ovl_lookup_data. */
  datatype Look = Look(name: Redirect, isDir: bool, isOpaque: bool, stop: bool, last: bool, redirected: bool)

  datatype Found = Invalid | Found(node: Option<Node>, look: Look)

  /** ovl_check_redirect for a directory met at component c of pre + [c] + post. */
  function CheckRedirect(value: Option<string>, d: Look, pre: seq<string>, post: seq<string>): Option<Look> {
    if value.None? then Some(d)
    else
      match Parse(value.value)
      case None => None
      case Some(Abs(r)) => Some(d.(stop := false, name := Abs(r + post), redirected := true))
      case Some(Rel(r)) => Some(d.(name := if d.name.Abs? then Abs(pre + [r] + post) else Rel(r), redirected := true))
  }

  /** is_dir is set exactly by a directory found as the last component; a file ends the search. */
  predicate KindKept(d: Look, node: Option<Node>, d': Look, lastElement: bool) {
    && (d'.isDir <==> d.isDir || (lastElement && node.Some? && node.value.Dir?))
    && (node.Some? && node.value.File? ==> d'.stop && !d.isDir)
  }

  /** ovl_lookup_single. */
  function LookupSingle(base: Node, d: Look, pre: seq<string>, c: string, post: seq<string>): (f: Found)
    requires base.Dir?
    requires d.name.Abs? ==> d.name.comps == pre + [c] + post
    ensures f.Found? && f.node.Some? ==> !f.node.value.Whiteout? && (post != [] ==> f.node.value.Dir?)
    ensures f.Found? && f.node.Some? && d.name.Abs? ==>
      && f.look.name.Abs?
      && |f.look.name.comps| > |post|
      && f.look.name.comps[|f.look.name.comps| - |post|..] == post
    ensures f.Found? ==> f.look.last == d.last
    ensures f.Found? && f.node.None? ==> f.look.name == d.name && f.look.redirected == d.redirected && f.look.isDir == d.isDir
    ensures f.Found? && f.look.redirected && !d.redirected ==> f.node.Some? && f.node.value.Dir?
    ensures f.Found? && f.look.name.Abs? && !d.name.Abs? ==> f.look.redirected && f.node.Some? && !d.last
    ensures f.Found? ==> KindKept(d, f.node, f.look, post == [])
  {
    if c !in base.kids then Found(None, d)
    else
      var child := base.kids[c];
      if child.Whiteout? then
        Found(None, d.(stop := true, isOpaque := true))
      else if child.File? then
        if d.isDir || post != [] then Found(None, d.(stop := true)) else Found(Some(child), d.(stop := true))
      else
        var d1 := if post == [] then d.(isDir := true) else d;
        if d.last then Found(Some(child), d1)
        else if child.isOpaque then
          Found(Some(child), if post == [] then d1.(stop := true, isOpaque := true) else d1.(stop := true))
        else
          match CheckRedirect(child.redirect, d1, pre, post)
          case None => Invalid
          case Some(d2) => Found(Some(child), d2)
  }

  /** The loop of ovl_lookup_layer: the components of rest are still to be walked. */
  function Walk(base: Node, d: Look, pre: seq<string>, rest: seq<string>): (f: Found)
    requires base.Dir? && rest != [] && d.name == Abs(pre + rest)
    ensures f.Found? && f.node.Some? ==> f.look.name.Abs? && f.look.name.comps != [] && !f.node.value.Whiteout?
    ensures f.Found? ==> f.look.last == d.last && f.look.name.Abs? && f.look.name.comps != []
    ensures f.Found? ==> KindKept(d, f.node, f.look, true)
    decreases |rest|
  {
    var c, post := rest[0], rest[1..];
    assert pre + rest == pre + [c] + post;
    match LookupSingle(base, d, pre, c, post)
    case Invalid => Invalid
    case Found(child, d') =>
      if child.None? || post == [] then Found(child, d')
      else Walk(child.value, d', d'.name.comps[..|d'.name.comps| - |post|], post)
  }

  predicate WellFormed(d: Look) {
    d.name.Abs? ==> d.name.comps != []
  }

  /** ovl_lookup_layer. */
  function LookupLayer(base: Node, d: Look): (f: Found)
    requires base.Dir? && WellFormed(d)
    ensures f.Found? ==> WellFormed(f.look) && f.look.last == d.last
    ensures f.Found? && f.node.Some? ==> !f.node.value.Whiteout?
    ensures f.Found? && f.look.name.Abs? && !d.name.Abs? ==> f.look.redirected && f.node.Some?
    ensures f.Found? ==> KindKept(d, f.node, f.look, true)
  {
    match d.name
    case Rel(n) => LookupSingle(base, d, [], n, [])
    case Abs(cs) => Walk(base, d, [], cs)
  }

  // ---------- the loop over the lower layers ----------

  datatype LookupError = EINVAL | EPERM

  datatype Stack = Err(error: LookupError) | Ok(lower: seq<LPath>)

  /** Layers in order, each at most once, each a directory to look into. */
  predicate StackOk(s: seq<LPath>, numLower: nat) {
    && (forall i | 0 <= i < |s| :: 1 <= s[i].idx <= numLower && s[i].node.Dir?)
    && forall i, j | 0 <= i < j < |s| :: s[i].idx < s[j].idx
  }

  predicate RootsOk(roots: seq<LPath>) {
    forall i | 0 <= i < |roots| :: roots[i].idx == i + 1 && roots[i].node.Dir?
  }

  /** What a finished lookup hands to the dentry: layers lo..numLower in order, each at most once. */
  ghost predicate IncreasingFrom(s: seq<LPath>, lo: nat, numLower: nat) {
    s == [] || (lo <= s[0].idx <= numLower && !s[0].node.Whiteout? && IncreasingFrom(s[1..], s[0].idx + 1, numLower))
  }

  ghost predicate Increasing(s: seq<LPath>, numLower: nat) {
    IncreasingFrom(s, 1, numLower)
  }

  lemma IncreasingCons(x: LPath, s: seq<LPath>, lo: nat, numLower: nat)
    requires lo <= x.idx <= numLower && !x.node.Whiteout? && IncreasingFrom(s, x.idx + 1, numLower)
    ensures IncreasingFrom([x] + s, lo, numLower)
  {
    assert ([x] + s)[1..] == s;
  }

  /** An absolute name is only ever walked down from a layer root. */
  predicate NameFitsStack(d: Look, atRoot: bool) {
    WellFormed(d) && (d.name.Abs? ==> atRoot)
  }

  predicate AllDirs(s: seq<LPath>) {
    forall i | 0 <= i < |s| :: s[i].node.Dir?
  }

  predicate OneFile(s: seq<LPath>) {
    |s| == 1 && s[0].node.File?
  }

  function LastFlag(follow: bool, s: seq<LPath>, i: nat, numLower: nat): bool
    requires i < |s|
  {
    if follow then s[i].idx == numLower else i == |s| - 1
  }

  /** The loop of ovl_lookup. atRoot says whether s is the root's own stack. */
  function LowerLoop(roots: seq<LPath>, s: seq<LPath>, atRoot: bool, i: nat, d: Look, follow: bool): (r: Stack)
    requires RootsOk(roots) && StackOk(s, |roots|) && (atRoot ==> s == roots)
    requires NameFitsStack(d, atRoot)
    ensures r.Ok? && i >= |s| ==> r.lower == []
    ensures r.Ok? && i < |s| ==> IncreasingFrom(r.lower, s[i].idx, |roots|)
    decreases if i < |s| then |roots| + 1 - s[i].idx else 0
  {
    if d.stop || i >= |s| then Ok([])
    else
      match LookupLayer(s[i].node, d.(last := LastFlag(follow, s, i, |roots|)))
      case Invalid => Err(EINVAL)
      case Found(None, d') =>
        var r := LowerLoop(roots, s, atRoot, i + 1, d', follow);
        if r.Ok? && r.lower != [] then
          assert IncreasingFrom(r.lower, s[i].idx, |roots|);
          r
        else r
      case Found(Some(child), d') =>
        var x := LPath(s[i].idx, child);
        if d'.redirected && !follow then Err(EPERM)
        else if d'.stop then Ok([x])
        else
          var restart := d'.redirected && d'.name.Abs? && !atRoot;
          Push(x, LowerLoop(roots, if restart then roots else s, atRoot || restart, if restart then s[i].idx else i + 1, d', follow),
               s[i].idx, |roots|)
  }

  function Push(x: LPath, r: Stack, ghost lo: nat, ghost numLower: nat): (r': Stack)
    requires r.Ok? && lo <= x.idx <= numLower && !x.node.Whiteout? ==> IncreasingFrom(r.lower, x.idx + 1, numLower)
    requires lo <= x.idx <= numLower && !x.node.Whiteout?
    ensures r'.Ok? ==> IncreasingFrom(r'.lower, lo, numLower)
  {
    if r.Ok? then
      IncreasingCons(x, r.lower, lo, numLower);
      Ok([x] + r.lower)
    else
      r
  }

  /** A stack is made of directories, or is the one file on which the search ended. */
  lemma {:induction false} LowerLoopKinds(roots: seq<LPath>, s: seq<LPath>, atRoot: bool, i: nat, d: Look, follow: bool)
    requires RootsOk(roots) && StackOk(s, |roots|) && (atRoot ==> s == roots)
    requires NameFitsStack(d, atRoot)
    ensures var r := LowerLoop(roots, s, atRoot, i, d, follow);
      r.Ok? ==> AllDirs(r.lower) || (!d.isDir && OneFile(r.lower))
    decreases if i < |s| then |roots| + 1 - s[i].idx else 0
  {
    if !d.stop && i < |s| {
      match LookupLayer(s[i].node, d.(last := LastFlag(follow, s, i, |roots|)))
      case Invalid =>
      case Found(None, d') => LowerLoopKinds(roots, s, atRoot, i + 1, d', follow);
      case Found(Some(child), d') =>
        if !(d'.redirected && !follow) && !d'.stop {
          var restart := d'.redirected && d'.name.Abs? && !atRoot;
          LowerLoopKinds(roots, if restart then roots else s, atRoot || restart, if restart then s[i].idx else i + 1, d', follow);
        }
    }
  }

  /** No layer contributes twice, so a stack never exceeds the numlower slots allocated for it. */
  lemma {:induction false} IncreasingFits(s: seq<LPath>, lo: nat, numLower: nat)
    requires IncreasingFrom(s, lo, numLower)
    ensures s != [] ==> |s| <= numLower + 1 - lo
    ensures forall i | 0 <= i < |s| :: lo <= s[i].idx <= numLower && !s[i].node.Whiteout?
    ensures forall i, j | 0 <= i < j < |s| :: s[i].idx < s[j].idx
  {
    if s != [] {
      IncreasingFits(s[1..], s[0].idx + 1, numLower);
      assert forall i | 1 <= i < |s| :: s[i] == s[1..][i - 1];
    }
  }

  // ---------- overlay dentries ----------

  /** An overlay dentry as looked up: its upper dentry, its opaque flag and its lower stack. */
  datatype Entry =
    | Bad(error: LookupError)
    | Entry(upper: Option<Node>, isOpaque: bool, lower: seq<LPath>)
  {
    /** d_can_lookup */
    predicate IsDir() {
      Entry? && (if upper.Some? then upper.value.Dir? else lower != [] && lower[0].node.Dir?)
    }

    predicate IsNegative() {
      Entry? && upper.None? && lower == []
    }

    predicate UpperDir() {
      Entry? && upper.Some? && upper.value.Dir?
    }
  }

  const NEGATIVE := Entry(None, false, [])

  function StartLook(name: string, last: bool): Look {
    Look(Rel(name), false, false, false, last, false)
  }

  /** A directory dentry as lookup produces them. */
  ghost predicate EntryOk(e: Entry, numLower: nat) {
    e.Entry? ==>
      && (e.upper.Some? ==> !e.upper.value.Whiteout?)
      && Increasing(e.lower, numLower)
      && (AllDirs(e.lower) || (e.upper.None? && OneFile(e.lower)))
  }

  /** ovl_lookup of one name below a parent dentry. */
  function Lookup(roots: seq<LPath>, parent: Entry, name: string, follow: bool): (e: Entry)
    requires RootsOk(roots) && EntryOk(parent, |roots|) && parent.IsDir()
    ensures EntryOk(e, |roots|)
    ensures e.Entry? && e.upper.Some? ==> parent.UpperDir() && name in parent.upper.value.kids && e.upper.value == parent.upper.value.kids[name]
  {
    var poe := parent.lower;
    var d := StartLook(name, !follow && |poe| == 0);
    var up := if parent.UpperDir() then LookupLayer(parent.upper.value, d) else Found(None, d);
    match up
    case Invalid => Bad(EINVAL)
    case Found(upper, d') =>
      var toRoot := d'.redirected && d'.name.Abs?;
      assert StackOk(poe, |roots|) by { IncreasingFits(poe, 1, |roots|); }
      LowerLoopKinds(roots, if toRoot then roots else poe, toRoot, 0, d', follow);
      match LowerLoop(roots, if toRoot then roots else poe, toRoot, 0, d', follow)
      case Err(e) => Bad(e)
      case Ok(lower) => Entry(upper, d'.isOpaque, lower)
  }
}
