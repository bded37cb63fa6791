/** What a path means in the lower layers when directories there carry redirects and opaque marks, told from the layer
    trees alone: where a path leads in one layer, and under which path the layers below are searched. */
module LayerPaths {
  import opened Paths
  import opened Layers

  type Path = seq<string>

  /** What a real layer holds at a path. */
  function NodeAt(base: Node, p: Path): Option<Node>
    decreases |p|
  {
    if p == [] then Some(base)
    else
      var up, c := NodeAt(base, p[..|p| - 1]), p[|p| - 1];
      if up.Some? && up.value.Dir? && c in up.value.kids then Some(up.value.kids[c]) else None
  }

  /** An opaque directory; its redirect is not read. */
  predicate OpaqueAt(base: Node, p: Path) {
    p != [] && NodeAt(base, p).Some? && NodeAt(base, p).value.Dir? && NodeAt(base, p).value.isOpaque
  }

  /** The redirect that a directory carries. */
  function RedirectAt(base: Node, p: Path): Option<string> {
    if p != [] && NodeAt(base, p).Some? && NodeAt(base, p).value.Dir? && !NodeAt(base, p).value.isOpaque
    then NodeAt(base, p).value.redirect
    else None
  }

  predicate AbsoluteAt(base: Node, p: Path) {
    RedirectAt(base, p).Some? && Parse(RedirectAt(base, p).value).Some? && Parse(RedirectAt(base, p).value).value.Abs?
  }

  /** The path for the layers below: a component with a relative redirect is replaced in its place, everything up to one
      with an absolute redirect by its value. */
  function NextPath(base: Node, p: Path): Path
    decreases |p|
  {
    if p == [] then []
    else
      var before := NextPath(base, p[..|p| - 1]);
      var r := RedirectAt(base, p);
      if r.None? || Parse(r.value).None? then before + [p[|p| - 1]]
      else
        match Parse(r.value).value
        case Rel(n) => before + [n]
        case Abs(cs) => cs
  }

  /** Opaque directories hide the layers below, but for an absolute redirect further down. */
  predicate Hidden(base: Node, p: Path)
    decreases |p|
  {
    p != [] && (OpaqueAt(base, p) || (!AbsoluteAt(base, p) && Hidden(base, p[..|p| - 1])))
  }

  /** Some directory on the path carries an invalid redirect. */
  predicate Bad(base: Node, p: Path)
    decreases |p|
  {
    p != [] && ((RedirectAt(base, p).Some? && Parse(RedirectAt(base, p).value).None?) || Bad(base, p[..|p| - 1]))
  }

  /** Something that is no directory is in the way. */
  predicate Blocked(base: Node, p: Path, needDir: bool)
    decreases |p|
  {
    p != [] && (
      || Blocked(base, p[..|p| - 1], true)
      || (NodeAt(base, p).Some? && (NodeAt(base, p).value.Whiteout? || (NodeAt(base, p).value.File? && needDir))))
  }

  /** What a search may end at. */
  function FoundAt(base: Node, p: Path, needDir: bool): Option<Node> {
    var n := NodeAt(base, p);
    if n.Some? && (n.value.Dir? || (n.value.File? && !needDir)) then n else None
  }

  predicate Stops(base: Node, p: Path, needDir: bool) {
    Blocked(base, p, needDir) || Hidden(base, p) || (NodeAt(base, p).Some? && NodeAt(base, p).value.File?)
  }

  function Grown(idx: nat, found: Option<Node>, rest: Stack): Stack {
    if found.None? || rest.Err? then rest else Ok([LPath(idx, found.value)] + rest.lower)
  }

  /** The lower stack of a path, from layer i on: what each layer holds there, the path being rewritten from layer to
      layer. In the last layer redirects are not read. */
  function Trail(roots: seq<LPath>, i: nat, p: Path, needDir: bool): Stack
    decreases |roots| - i
  {
    if i >= |roots| then Ok([])
    else
      var base, last := roots[i].node, i == |roots| - 1;
      if !last && Bad(base, p) then Err(EINVAL)
      else
        var found := FoundAt(base, p, needDir);
        var rest := if last || Stops(base, p, needDir) then Ok([]) else Trail(roots, i + 1, NextPath(base, p), needDir || found.Some?);
        Grown(roots[i].idx, found, rest)
  }

  /** The layers below are hidden at the k-th directory of the path, and nothing after it brings them back. */
  predicate HiddenFrom(base: Node, p: Path, k: int) {
    0 < k <= |p| && OpaqueAt(base, p[..k]) && forall j | k < j <= |p| :: !AbsoluteAt(base, p[..j])
  }

  /** Hidden, said directly. */
  lemma {:induction false} HiddenIff(base: Node, p: Path)
    ensures Hidden(base, p) <==> exists k :: HiddenFrom(base, p, k)
    decreases |p|
  {
    if p != [] {
      var init := p[..|p| - 1];
      HiddenIff(base, init);
      assert p[..|p|] == p;
      forall k ensures HiddenFrom(base, p, k) <==> if k == |p| then OpaqueAt(base, p) else HiddenFrom(base, init, k) && !AbsoluteAt(base, p) {
        HiddenFromInit(base, p, k);
      }
      assert OpaqueAt(base, p) ==> HiddenFrom(base, p, |p|);
    }
  }

  lemma HiddenFromInit(base: Node, p: Path, k: int)
    requires p != []
    ensures HiddenFrom(base, p, k) <==> if k == |p| then OpaqueAt(base, p) else HiddenFrom(base, p[..|p| - 1], k) && !AbsoluteAt(base, p)
  {
    var init := p[..|p| - 1];
    assert p[..|p|] == p;
    assert forall j | 0 <= j <= |init| :: init[..j] == p[..j];
  }

  // ---------- one layer ----------

  /** Nothing on a path behind something that is no directory. */
  lemma {:induction false} BehindNoDir(base: Node, p: Path, rest: Path, needDir: bool)
    requires rest != [] && (NodeAt(base, p + [rest[0]]).Some? ==> !NodeAt(base, p + [rest[0]]).value.Dir?)
    ensures NextPath(base, p + rest) == NextPath(base, p) + rest
    ensures Hidden(base, p + rest) == Hidden(base, p) && Bad(base, p + rest) == Bad(base, p)
    ensures |rest| > 1 ==> NodeAt(base, p + rest).None? && Blocked(base, p + rest, needDir) == Blocked(base, p + [rest[0]], true)
    ensures |rest| == 1 ==> rest == [rest[0]]
    decreases |rest|
  {
    var init := rest[..|rest| - 1];
    assert (p + rest)[..|p + rest| - 1] == p + init;
    if |rest| == 1 {
      assert init == [] && p + init == p;
      assert rest == [rest[0]];
      assert NextPath(base, p) + rest == NextPath(base, p) + [rest[0]];
    } else {
      BehindNoDir(base, p, init, true);
      assert NextPath(base, p) + rest == (NextPath(base, p) + init) + [rest[|rest| - 1]];
    }
  }

  /** The walk of ovl_lookup_layer, having reached q: it finds what is at the whole path, rewrites the name as NextPath
      does, and stops as Stops says. */
  ghost predicate WalkAnswers(root: Node, p: Path, d: Look, f: Found) {
    && (f.Invalid? <==> !d.last && Bad(root, p))
    && (f.Found? ==> f.node == FoundAt(root, p, d.isDir))
    && (f.Found? ==> f.look.isDir == (d.isDir || (f.node.Some? && f.node.value.Dir?)))
    && (f.Found? && !d.last ==> f.look.name == Abs(NextPath(root, p)) && (f.look.stop <==> Stops(root, p, d.isDir)))
  }

  lemma {:induction false} WalkIsPath(root: Node, q: Path, base: Node, d: Look, pre: Path, rest: Path)
    requires NodeAt(root, q) == Some(base) && base.Dir? && rest != [] && d.name == Abs(pre + rest)
    requires !d.last ==> pre == NextPath(root, q) && d.stop == Hidden(root, q) && !Bad(root, q)
    requires !Blocked(root, q, true)
    ensures WalkAnswers(root, q + rest, d, Walk(base, d, pre, rest))
    decreases |rest|
  {
    var c, post := rest[0], rest[1..];
    var q1 := q + [c];
    assert pre + rest == pre + [c] + post;
    assert q + rest == q1 + post;
    if c !in base.kids || !base.kids[c].Dir? {
      WalkEnds(root, q, base, d, pre, rest);
    } else {
      OneComponent(root, q, base, d, pre, c, post);
      var f := LookupSingle(base, d, pre, c, post);
      if post == [] {
        assert q1 + post == q1 && NextPath(root, q1) + post == NextPath(root, q1);
      } else if f.Found? {
        var pre' := f.look.name.comps[..|f.look.name.comps| - |post|];
        assert f.look.name.comps == pre' + post;
        WalkIsPath(root, q1, f.node.value, f.look, pre', post);
      } else {
        BadStays(root, q1, post);
      }
    }
  }

  /** What the search ends with at something that is no directory. */
  function EndOf(base: Node, d: Look, c: string, post: Path): Found
    requires base.Dir?
  {
    if c !in base.kids then Found(None, d)
    else if base.kids[c].Whiteout? then Found(None, d.(stop := true, isOpaque := true))
    else if d.isDir || post != [] then Found(None, d.(stop := true))
    else Found(Some(base.kids[c]), d.(stop := true))
  }

  lemma WalkEndsAt(base: Node, d: Look, pre: Path, rest: Path)
    requires base.Dir? && rest != [] && d.name == Abs(pre + rest)
    requires rest[0] !in base.kids || !base.kids[rest[0]].Dir?
    ensures Walk(base, d, pre, rest) == EndOf(base, d, rest[0], rest[1..])
  {
    assert pre + rest == pre + [rest[0]] + rest[1..];
  }

  lemma WalkEnds(root: Node, q: Path, base: Node, d: Look, pre: Path, rest: Path)
    requires NodeAt(root, q) == Some(base) && base.Dir? && rest != [] && d.name == Abs(pre + rest)
    requires !d.last ==> pre == NextPath(root, q) && d.stop == Hidden(root, q) && !Bad(root, q)
    requires !Blocked(root, q, true) && (rest[0] !in base.kids || !base.kids[rest[0]].Dir?)
    ensures WalkAnswers(root, q + rest, d, Walk(base, d, pre, rest))
  {
    var c, post := rest[0], rest[1..];
    WalkEndsAt(base, d, pre, rest);
    NodeBelow(root, q, base, c);
    BehindNoDir(root, q, rest, d.isDir);
    if post == [] {
      assert rest == [c];
      EndAnswers(root, q, base, d, c);
    } else {
      EndAnswers(root, q, base, d.(isDir := true), c);
      LongEnd(root, q, q + rest, d, c, EndOf(base, d, c, post));
    }
  }

  lemma LongEnd(root: Node, q: Path, p: Path, d: Look, c: string, f: Found)
    requires f.Found? && f.node.None? && f.look.isDir == d.isDir && f.look.name == d.name
    requires f.look.stop <==> d.stop || Blocked(root, q + [c], true)
    requires NodeAt(root, p).None? && Blocked(root, p, d.isDir) == Blocked(root, q + [c], true)
    requires !d.last ==> d.name == Abs(NextPath(root, p)) && d.stop == Hidden(root, p) && !Bad(root, p)
    ensures WalkAnswers(root, p, d, f)
  {
  }

  lemma NodeBelow(root: Node, q: Path, base: Node, c: string)
    requires NodeAt(root, q) == Some(base) && base.Dir?
    ensures NodeAt(root, q + [c]) == if c in base.kids then Some(base.kids[c]) else None
  {
    assert (q + [c])[..|q + [c]| - 1] == q;
  }

  /** The last component, when it is no directory. */
  lemma EndAnswers(root: Node, q: Path, base: Node, d: Look, c: string)
    requires NodeAt(root, q) == Some(base) && base.Dir? && (c in base.kids ==> !base.kids[c].Dir?)
    requires !Blocked(root, q, true)
    ensures var p, f := q + [c], EndOf(base, d, c, []);
      && f.Found? && f.node == FoundAt(root, p, d.isDir) && (f.node.Some? ==> !f.node.value.Dir?)
      && f.look.isDir == d.isDir && f.look.name == d.name
      && (f.look.stop <==> d.stop || Blocked(root, p, d.isDir) || f.node.Some?)
  {
    assert (q + [c])[..|q + [c]| - 1] == q;
  }

  lemma {:induction false} BadStays(base: Node, p: Path, rest: Path)
    requires Bad(base, p)
    ensures Bad(base, p + rest)
    decreases |rest|
  {
    if rest == [] {
      assert p + rest == p;
    } else {
      assert (p + rest)[..|p + rest| - 1] == p + rest[..|rest| - 1];
      BadStays(base, p, rest[..|rest| - 1]);
    }
  }

  /** One component that is a directory. */
  lemma OneComponent(root: Node, q: Path, base: Node, d: Look, pre: Path, c: string, post: Path)
    requires NodeAt(root, q) == Some(base) && base.Dir? && d.name == Abs(pre + [c] + post)
    requires !d.last ==> pre == NextPath(root, q) && d.stop == Hidden(root, q) && !Bad(root, q)
    requires !Blocked(root, q, true) && c in base.kids && base.kids[c].Dir?
    ensures var q1, f := q + [c], LookupSingle(base, d, pre, c, post);
      && NodeAt(root, q1) == Some(base.kids[c]) && !Blocked(root, q1, true)
      && (f.Invalid? <==> !d.last && Bad(root, q1))
      && (f.Found? ==> f.node == Some(base.kids[c]) && f.look.last == d.last && f.look.isDir == (d.isDir || post == []))
      && (f.Found? && d.last ==> f.look.name == d.name)
      && (f.Found? && !d.last ==> f.look.name == Abs(NextPath(root, q1) + post) && f.look.stop == Hidden(root, q1))
  {
    var q1 := q + [c];
    assert q1[..|q1| - 1] == q;
    NodeBelow(root, q, base, c);
    var child := base.kids[c];
    if !d.last && !child.isOpaque && child.redirect.Some? && Parse(child.redirect.value).Some? {
      match Parse(child.redirect.value).value
      case Rel(r) => assert pre + [r] + post == NextPath(root, q1) + post;
      case Abs(cs) =>
    }
  }

  // ---------- the loop over the layers ----------

  lemma LookupLayerIsPath(root: Node, d: Look)
    requires root.Dir? && d.name.Abs? && d.name.comps != [] && !d.stop
    ensures WalkAnswers(root, d.name.comps, d, LookupLayer(root, d))
  {
    assert [] + d.name.comps == d.name.comps;
    WalkIsPath(root, [], root, d, [], d.name.comps);
  }

  /** An absolute name, from layer i on. */
  lemma {:induction false} LowerLoopIsTrail(roots: seq<LPath>, i: nat, d: Look)
    requires RootsOk(roots) && d.name.Abs? && d.name.comps != [] && !d.stop
    ensures LowerLoop(roots, roots, true, i, d, true) == Trail(roots, i, d.name.comps, d.isDir)
    decreases |roots| - i
  {
    if i < |roots| {
      var d1 := d.(last := LastFlag(true, roots, i, |roots|));
      LookupLayerIsPath(roots[i].node, d1);
      var f := LookupLayer(roots[i].node, d1);
      if f.Found? && !d1.last && !f.look.stop {
        LowerLoopIsTrail(roots, i + 1, f.look);
      }
    }
  }

  /** Below a path that leads to a directory, nothing is in the way. */
  lemma {:induction false} DirNotBlocked(base: Node, p: Path, needDir: bool)
    requires NodeAt(base, p).Some? && NodeAt(base, p).value.Dir?
    ensures !Blocked(base, p, needDir)
    decreases |p|
  {
    if p != [] {
      DirNotBlocked(base, p[..|p| - 1], true);
    }
  }

  /** The empty path leads to the roots themselves. */
  lemma {:induction false} RootTrail(roots: seq<LPath>, i: nat, needDir: bool)
    requires RootsOk(roots) && i <= |roots|
    ensures Trail(roots, i, [], needDir) == Ok(roots[i..])
    decreases |roots| - i
  {
    if i < |roots| {
      RootTrail(roots, i + 1, true);
      assert roots[i..] == [roots[i]] + roots[i + 1..];
    }
  }

  /** One more component in a layer that holds the directory. */
  lemma NameBelow(root: Node, p: Path, base: Node, d: Look, n: string)
    requires NodeAt(root, p) == Some(base) && base.Dir? && d.name == Rel(n) && !d.stop
    ensures var q, f := p + [n], LookupSingle(base, d, [], n, []);
      && (f.Invalid? ==> !d.last && Bad(root, q))
      && (f.Found? ==> f.node == FoundAt(root, q, d.isDir) && f.look.isDir == (d.isDir || (f.node.Some? && f.node.value.Dir?)))
      && (f.Found? && !d.last ==> Bad(root, q) == Bad(root, p) && NameGoesOn(root, p, q, d.isDir, f.look))
  {
    var q := p + [n];
    assert q[..|q| - 1] == p;
    NodeBelow(root, p, base, n);
    DirNotBlocked(root, p, true);
    if n in base.kids && base.kids[n].Dir? {
      DirBelow(root, p, q, base.kids[n], d, n);
    }
  }

  lemma DirBelow(root: Node, p: Path, q: Path, child: Node, d: Look, n: string)
    requires q != [] && q[..|q| - 1] == p && q[|q| - 1] == n
    requires NodeAt(root, q) == Some(child) && child.Dir? && !Blocked(root, p, true) && d.name == Rel(n) && !d.stop
    ensures var f := DirAnswer(child, d);
      && (f.Invalid? ==> !d.last && Bad(root, q))
      && (f.Found? ==> f.node == FoundAt(root, q, d.isDir) && f.look.isDir)
      && (f.Found? && !d.last ==> Bad(root, q) == Bad(root, p) && NameGoesOn(root, p, q, d.isDir, f.look))
  {
  }

  /** What ovl_lookup_single answers for a directory at the last component of a relative name. */
  function DirAnswer(child: Node, d: Look): Found
    requires child.Dir? && d.name.Rel?
  {
    var d1 := d.(isDir := true);
    if d.last then Found(Some(child), d1)
    else if child.isOpaque then Found(Some(child), d1.(stop := true, isOpaque := true))
    else
      match CheckRedirect(child.redirect, d1, [], [])
      case None => Invalid
      case Some(d2) => Found(Some(child), d2)
  }

  /** The name under which the search goes on below q, a child of p. */
  predicate NameGoesOn(root: Node, p: Path, q: Path, needDir: bool, d: Look) {
    if AbsoluteAt(root, q) then
      d.redirected && !d.stop && d.name == Abs(NextPath(root, q)) && NextPath(root, q) != [] && !Stops(root, q, needDir)
    else
      && d.name.Rel? && NextPath(root, q) == NextPath(root, p) + [d.name.name]
      && (Stops(root, q, needDir) <==> d.stop || Hidden(root, p))
  }

  /** One more component in a layer that has no directory there. */
  lemma NameBehind(root: Node, p: Path, n: string, needDir: bool)
    requires NodeAt(root, p).Some? ==> !NodeAt(root, p).value.Dir?
    ensures var q := p + [n];
      && FoundAt(root, q, needDir).None? && Bad(root, q) == Bad(root, p) && NextPath(root, q) == NextPath(root, p) + [n]
      && (Stops(root, q, needDir) <==> Blocked(root, p, true) || Hidden(root, p))
  {
    var q := p + [n];
    assert q[..|q| - 1] == p;
  }

  /** What the layers below i contribute to a trail. */
  function TrailBelow(roots: seq<LPath>, i: nat, p: Path, needDir: bool): Stack
    requires i < |roots|
  {
    if i == |roots| - 1 || Stops(roots[i].node, p, needDir) then Ok([])
    else Trail(roots, i + 1, NextPath(roots[i].node, p), needDir || FoundAt(roots[i].node, p, needDir).Some?)
  }

  lemma TrailHead(roots: seq<LPath>, s: seq<LPath>, i: nat, j: nat, p: Path, needDir: bool)
    requires i < |roots| && j <= |s| && AllDirs(s) && Trail(roots, i, p, needDir) == Ok(s[j..])
    ensures i < |roots| - 1 ==> !Bad(roots[i].node, p)
    ensures var found := FoundAt(roots[i].node, p, needDir);
      if found.Some? then
        && j < |s| && s[j] == LPath(roots[i].idx, found.value) && found.value.Dir? && NodeAt(roots[i].node, p) == found
        && TrailBelow(roots, i, p, needDir) == Ok(s[j + 1..])
      else
        && (NodeAt(roots[i].node, p).Some? ==> !NodeAt(roots[i].node, p).value.Dir?)
        && TrailBelow(roots, i, p, needDir) == Ok(s[j..])
  {
    var found, rest := FoundAt(roots[i].node, p, needDir), TrailBelow(roots, i, p, needDir);
    if found.Some? {
      assert s[j..] == [LPath(roots[i].idx, found.value)] + rest.lower;
      assert s[j] == s[j..][0] && s[j + 1..] == s[j..][1..] == rest.lower;
    }
  }

  /** A name below the directory at a path: its stack is the trail of the longer path. The loop goes over the stack of the
      directory, and starts again at the roots when it meets an absolute redirect. */
  lemma {:induction false} RelIsTrail(roots: seq<LPath>, s: seq<LPath>, i: nat, j: nat, p: Path, needDir: bool, d: Look, n: string)
    requires RootsOk(roots) && StackOk(s, |roots|) && j <= |s|
    requires Trail(roots, i, p, needDir) == Ok(s[j..]) && d.name == Rel(n) && !d.stop
    ensures LowerLoop(roots, s, false, j, d, true) == Trail(roots, i, p + [n], d.isDir)
    decreases |roots| - i
  {
    if i < |roots| {
      TrailHead(roots, s, i, j, p, needDir);
      if FoundAt(roots[i].node, p, needDir).Some? {
        RelFound(roots, s, i, j, p, needDir, d, n);
      } else {
        NameBehind(roots[i].node, p, n, d.isDir);
        if i < |roots| - 1 && !Stops(roots[i].node, p, needDir) {
          RelIsTrail(roots, s, i + 1, j, NextPath(roots[i].node, p), needDir, d, n);
        }
      }
    }
  }

  /** The loop at j, and layer i with the directory at path p. */
  ghost predicate AtLayer(roots: seq<LPath>, s: seq<LPath>, i: nat, j: nat, p: Path, needDir: bool) {
    && RootsOk(roots) && StackOk(s, |roots|) && i < |roots| && j < |s|
    && (i < |roots| - 1 ==> !Bad(roots[i].node, p))
    && s[j].idx == i + 1 && NodeAt(roots[i].node, p) == Some(s[j].node) == FoundAt(roots[i].node, p, needDir)
    && TrailBelow(roots, i, p, needDir) == Ok(s[j + 1..])
  }

  lemma {:induction false} RelFound(roots: seq<LPath>, s: seq<LPath>, i: nat, j: nat, p: Path, needDir: bool, d: Look, n: string)
    requires AtLayer(roots, s, i, j, p, needDir) && d.name == Rel(n) && !d.stop
    ensures LowerLoop(roots, s, false, j, d, true) == Trail(roots, i, p + [n], d.isDir)
    decreases |roots| - i, 0
  {
    var root, d1 := roots[i].node, d.(last := LastFlag(true, s, j, |roots|));
    NameBelow(root, p, s[j].node, d1, n);
    DirNotBlocked(root, p, needDir);
    var f := LookupSingle(s[j].node, d1, [], n, []);
    if f.Invalid? {
    } else if i == |roots| - 1 {
      LoopLast(roots, s, j, d, f);
    } else if AbsoluteAt(root, p + [n]) {
      LowerLoopIsTrail(roots, i + 1, f.look);
      LoopRestarts(roots, s, j, d, f);
    } else {
      if !Stops(root, p + [n], d.isDir) {
        RelIsTrail(roots, s, i + 1, j + 1, NextPath(root, p), true, f.look, f.look.name.name);
      }
      LoopGoesOn(roots, s, j, d, f);
    }
  }

  lemma LoopLast(roots: seq<LPath>, s: seq<LPath>, j: nat, d: Look, f: Found)
    requires RootsOk(roots) && StackOk(s, |roots|) && j < |s| && d.name.Rel? && !d.stop && s[j].idx == |roots|
    requires f.Found? && f == LookupLayer(s[j].node, d.(last := true))
    ensures LowerLoop(roots, s, false, j, d, true) == Grown(s[j].idx, f.node, Ok([]))
  {
    OnlyTheLastIsLast(s, j, |roots|);
  }

  lemma OnlyTheLastIsLast(s: seq<LPath>, i: nat, numLower: nat)
    requires StackOk(s, numLower) && i < |s|
    ensures i + 1 < |s| ==> s[i].idx < numLower
  {
    if i + 1 < |s| {
      assert s[i + 1].idx <= numLower;
    }
  }

  lemma LoopRestarts(roots: seq<LPath>, s: seq<LPath>, j: nat, d: Look, f: Found)
    requires RootsOk(roots) && StackOk(s, |roots|) && j < |s| && d.name.Rel? && !d.stop && s[j].idx < |roots|
    requires f.Found? && f == LookupLayer(s[j].node, d.(last := false)) && f.look.name.Abs? && !f.look.stop
    ensures f.look.name.comps != []
    ensures LowerLoop(roots, s, false, j, d, true) == Grown(s[j].idx, f.node, LowerLoop(roots, roots, true, s[j].idx, f.look, true))
  {
  }

  lemma LoopGoesOn(roots: seq<LPath>, s: seq<LPath>, j: nat, d: Look, f: Found)
    requires RootsOk(roots) && StackOk(s, |roots|) && j < |s| && d.name.Rel? && !d.stop && s[j].idx < |roots|
    requires f.Found? && f == LookupLayer(s[j].node, d.(last := false)) && f.look.name.Rel?
    ensures LowerLoop(roots, s, false, j, d, true) == Grown(s[j].idx, f.node, LowerLoop(roots, s, false, j + 1, f.look, true))
  {
  }

  // ---------- redirects not followed ----------

  /** What a name means below the directories of a stack when redirects are not followed: a directory that carries one is
      an error, unless it is opaque or in the last of them. */
  function ByName(s: seq<LPath>, i: nat, n: string, needDir: bool): Stack
    decreases |s| - i
  {
    if i >= |s| then Ok([])
    else if !s[i].node.Dir? || n !in s[i].node.kids then ByName(s, i + 1, n, needDir)
    else
      var child := s[i].node.kids[n];
      match child
      case Whiteout => Ok([])
      case File(_) => Ok(if needDir then [] else [LPath(s[i].idx, child)])
      case Dir(o, redirect, _, _) =>
        if o || i == |s| - 1 then Ok([LPath(s[i].idx, child)])
        else if redirect.Some? then Err(if Parse(redirect.value).None? then EINVAL else EPERM)
        else Grown(s[i].idx, Some(child), ByName(s, i + 1, n, true))
  }

  lemma {:induction false} LowerLoopByName(roots: seq<LPath>, s: seq<LPath>, i: nat, d: Look, n: string)
    requires RootsOk(roots) && StackOk(s, |roots|) && d.name == Rel(n) && !d.stop && !d.redirected
    ensures LowerLoop(roots, s, false, i, d, false) == ByName(s, i, n, d.isDir)
    decreases |s| - i
  {
    if i < |s| {
      var d1 := d.(last := LastFlag(false, s, i, |roots|));
      var f := LookupSingle(s[i].node, d1, [], n, []);
      NotFollowedTurn(roots, s, i, d, f);
      if n in s[i].node.kids && s[i].node.kids[n].Dir? {
        SingleIsAnswer(s[i].node, d1, n);
        NotFollowedDir(s[i].node.kids[n], d1);
        if f.Found? && !f.look.stop && !f.look.redirected {
          LowerLoopByName(roots, s, i + 1, f.look, n);
        }
      } else if n !in s[i].node.kids {
        LowerLoopByName(roots, s, i + 1, f.look, n);
      }
    }
  }

  lemma SingleIsAnswer(base: Node, d: Look, n: string)
    requires base.Dir? && d.name == Rel(n) && n in base.kids && base.kids[n].Dir?
    ensures LookupSingle(base, d, [], n, []) == DirAnswer(base.kids[n], d)
  {
  }

  lemma NotFollowedDir(child: Node, d: Look)
    requires child.Dir? && d.name.Rel? && !d.stop && !d.redirected
    ensures var f, goesOn := DirAnswer(child, d), !d.last && !child.isOpaque;
      && (f.Invalid? <==> goesOn && child.redirect.Some? && Parse(child.redirect.value).None?)
      && (f.Found? ==>
        && f.node == Some(child) && f.look.isDir && (f.look.stop <==> !d.last && child.isOpaque)
        && (f.look.redirected <==> goesOn && child.redirect.Some?) && (!f.look.redirected ==> f.look.name == d.name))
  {
  }

  lemma NotFollowedTurn(roots: seq<LPath>, s: seq<LPath>, i: nat, d: Look, f: Found)
    requires RootsOk(roots) && StackOk(s, |roots|) && i < |s| && d.name.Rel? && !d.stop
    requires f == LookupLayer(s[i].node, d.(last := LastFlag(false, s, i, |roots|)))
    ensures LowerLoop(roots, s, false, i, d, false) ==
      if f.Invalid? then Err(EINVAL)
      else if f.node.None? then LowerLoop(roots, s, false, i + 1, f.look, false)
      else if f.look.redirected then Err(EPERM)
      else if f.look.stop then Ok([LPath(s[i].idx, f.node.value)])
      else Grown(s[i].idx, f.node, LowerLoop(roots, s, false, i + 1, f.look, false))
  {
  }

  lemma {:induction false} WalkStaysRedirected(base: Node, d: Look, pre: Path, rest: Path)
    requires base.Dir? && rest != [] && d.name == Abs(pre + rest) && d.redirected
    ensures var f := Walk(base, d, pre, rest); f.Found? ==> f.look.redirected
    decreases |rest|
  {
    var post := rest[1..];
    assert pre + rest == pre + [rest[0]] + post;
    var f := LookupSingle(base, d, pre, rest[0], post);
    if f.Found? && f.node.Some? && post != [] {
      WalkStaysRedirected(f.node.value, f.look, f.look.name.comps[..|f.look.name.comps| - |post|], post);
    }
  }

  /** A redirect of the upper directory leads nowhere, or to an error. */
  lemma {:induction false} RedirectRefused(roots: seq<LPath>, s: seq<LPath>, atRoot: bool, i: nat, d: Look)
    requires RootsOk(roots) && StackOk(s, |roots|) && (atRoot ==> s == roots) && NameFitsStack(d, atRoot) && d.redirected
    ensures var r := LowerLoop(roots, s, atRoot, i, d, false); r.Ok? ==> r.lower == []
    decreases |s| - i
  {
    if !d.stop && i < |s| {
      var d1 := d.(last := LastFlag(false, s, i, |roots|));
      var f := LookupLayer(s[i].node, d1);
      if d.name.Abs? {
        assert [] + d.name.comps == d.name.comps;
        WalkStaysRedirected(s[i].node, d1, [], d.name.comps);
      }
      if f.Found? && f.node.None? {
        RedirectRefused(roots, s, atRoot, i + 1, f.look);
      }
    }
  }
}
