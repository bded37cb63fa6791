/** Moving a dentry: the marks that rename leaves on a directory, and why they carry its merged content along. */
module Moves {
  import opened Paths
  import opened Layers
  import opened LayerPaths
  import opened MergedView
  import opened UpperSteps

  // ---------- the lower path of a merge directory ----------

  /** The redirect stored in a dentry's inode; lookup does not read it on an opaque directory. */
  function ActiveRedirect(e: Entry): Option<Redirect> {
    if e.UpperDir() && !e.upper.value.isOpaque && e.upper.value.redirect.Some? then Parse(e.upper.value.redirect.value)
    else None
  }

  /** Where in the lower layers the dentry at a path comes from, by names and redirects. */
  function LowerPath(lo: Lowers, u: Node, path: Path): Path
    requires LayersOk(lo) && u.Dir?
    decreases |path|
  {
    if path == [] then []
    else
      var dir, name := path[..|path| - 1], path[|path| - 1];
      match ActiveRedirect(At(lo, u, path))
      case None => LowerPath(lo, u, dir) + [name]
      case Some(Rel(r)) => LowerPath(lo, u, dir) + [r]
      case Some(Abs(cs)) => cs
  }

  /** The dentries' stored redirects or names, from the dentry up to the root. */
  function Parts(lo: Lowers, u: Node, path: Path): seq<string>
    requires LayersOk(lo) && u.Dir?
    decreases |path|
  {
    if path == [] then []
    else
      var r := ActiveRedirect(At(lo, u, path));
      [if r.Some? then Text(r.value) else path[|path| - 1]] + Parts(lo, u, path[..|path| - 1])
  }

  predicate ValidPath(path: Path) {
    forall i | 0 <= i < |path| :: ValidName(path[i])
  }

  lemma ActiveIsValid(e: Entry)
    ensures ActiveRedirect(e).Some? ==>
      ValidRedirect(ActiveRedirect(e).value) && e.upper.value.redirect.value == Text(ActiveRedirect(e).value)
  {
    if ActiveRedirect(e).Some? {
      ParseIffText(e.upper.value.redirect.value, ActiveRedirect(e).value);
    }
  }

  lemma RenderOneMore(ps: seq<string>, cs: Path, c: string)
    requires RenderUp(ps) == Join(cs) && ValidName(c)
    ensures RenderUp([c] + ps) == Join(cs + [c])
  {
    JoinAppend(cs, [c]);
    assert Join([c]) == "/" + c;
    assert ([c] + ps)[1..] == ps;
  }

  lemma RenderAbsolute(ps: seq<string>, cs: Path)
    requires cs != []
    ensures RenderUp([Join(cs)] + ps) == Join(cs)
  {
  }

  /** ovl_get_redirect renders the lower path; its components are valid names. */
  lemma {:induction false} PartsRenderLowerPath(lo: Lowers, u: Node, path: Path)
    requires LayersOk(lo) && u.Dir? && ValidPath(path)
    ensures RenderUp(Parts(lo, u, path)) == Join(LowerPath(lo, u, path))
    ensures ValidPath(LowerPath(lo, u, path)) && (path != [] ==> LowerPath(lo, u, path) != [])
    ensures forall i | 0 <= i < |Parts(lo, u, path)| :: Parts(lo, u, path)[i] != ""
    decreases |path|
  {
    if path != [] {
      var dir, name := path[..|path| - 1], path[|path| - 1];
      var ps, cs := Parts(lo, u, dir), LowerPath(lo, u, dir);
      PartsRenderLowerPath(lo, u, dir);
      ActiveIsValid(At(lo, u, path));
      match ActiveRedirect(At(lo, u, path))
      case None => RenderOneMore(ps, cs, name);
      case Some(Rel(r)) => RenderOneMore(ps, cs, r);
      case Some(Abs(r)) => RenderAbsolute(ps, r);
    }
  }

  /** The name under which the lower layers are searched for a child that carries no absolute redirect. */
  function LowerName(e: Entry, name: string): string {
    var r := ActiveRedirect(e);
    if r.Some? && r.value.Rel? then r.value.name else name
  }

  /** Directories below a directory whose lower stack is a trail. */
  lemma DirsBelow(lo: Lowers, lower: seq<LPath>, p: Path, name: string, v: Option<Node>)
    requires LayersOk(lo) && lo.follow && StackOk(lower, |lo.roots|) && Trail(lo.roots, 0, p, true) == Ok(lower)
    requires var e := Meet(lo, lower, name, v); e.Entry? && e.lower != [] && AllDirs(e.lower)
    ensures var e := Meet(lo, lower, name, v);
      !(ActiveRedirect(e).Some? && ActiveRedirect(e).value.Abs?) ==> Trail(lo.roots, 0, p + [LowerName(e, name)], true) == Ok(e.lower)
  {
    if v.None? {
      MeetFresh(lo, lower, name, FRESH);
      MeetIsTrail(lo, lower, p, name, Some(FRESH));
      var e, e' := Meet(lo, lower, name, None), Meet(lo, lower, name, Some(FRESH));
      assert e'.Entry? && e'.lower == e.lower && LowerName(e, name) == name;
    } else {
      MeetIsTrail(lo, lower, p, name, v);
    }
  }

  const FRESH := Dir(false, None, false, map[])

  /** An absolute redirect leads to the trail of its value. */
  lemma AbsoluteReaches(lo: Lowers, lower: seq<LPath>, name: string, v: Option<Node>)
    requires LayersOk(lo) && lo.follow
    requires var e := Meet(lo, lower, name, v); e.Entry? && e.lower != [] && ActiveRedirect(e).Some? && ActiveRedirect(e).value.Abs?
    ensures var e := Meet(lo, lower, name, v); Trail(lo.roots, 0, ActiveRedirect(e).value.comps, true) == Ok(e.lower)
  {
    var cs := ActiveRedirect(Meet(lo, lower, name, v)).value.comps;
    LowerLoopIsTrail(lo.roots, 0, NameLook(lo, lower, name, true).(name := Abs(cs), redirected := true));
  }

  /** Without an absolute redirect, what shows below shows below the parent's lower directories. */
  lemma ParentHasLower(lo: Lowers, p: Entry, name: string)
    requires LayersOk(lo) && EntryOk(p, |lo.roots|)
    requires var e := Child(lo, p, name); e.Entry? && e.lower != [] && !(ActiveRedirect(e).Some? && ActiveRedirect(e).value.Abs?)
    ensures p.Entry? && p.IsDir() && p.lower != [] && AllDirs(p.lower)
  {
  }

  /** The lower stack of a merge directory is the trail of its lower path: what each layer holds at the path that the
      redirects in the layers above it lead to. */
  lemma {:induction false} LowerPathReaches(lo: Lowers, u: Node, path: Path)
    requires LayersOk(lo) && lo.follow && u.Dir?
    requires var e := At(lo, u, path); e.Entry? && e.lower != [] && AllDirs(e.lower)
    ensures path != [] ==> LowerPath(lo, u, path) != []
    ensures Trail(lo.roots, 0, LowerPath(lo, u, path), true) == Ok(At(lo, u, path).lower)
    decreases |path|
  {
    if path == [] {
      RootTrail(lo.roots, 0, true);
      assert lo.roots[0..] == lo.roots;
    } else {
      var dir, name := path[..|path| - 1], path[|path| - 1];
      assert path == dir + [name];
      var p, e := At(lo, u, dir), At(lo, u, path);
      ResolveLast(lo, RootEntry(lo, u), dir, name);
      ResolveOk(lo, RootEntry(lo, u), dir);
      ActiveIsValid(e);
      if ActiveRedirect(e).Some? && ActiveRedirect(e).value.Abs? {
        AbsoluteReaches(lo, p.lower, name, UpperAt(p, name));
      } else {
        ParentHasLower(lo, p, name);
        LowerPathReaches(lo, u, dir);
        IncreasingFits(p.lower, 1, |lo.roots|);
        DirsBelow(lo, p.lower, LowerPath(lo, u, dir), name, UpperAt(p, name));
      }
    }
  }

  // ---------- marks ----------

  /** ovl_set_redirect's test: must the redirect be an absolute path that is not stored yet? */
  predicate NeedsPath(e: Entry, sameDir: bool) {
    && e.IsDir() && e.lower != [] && !sameDir
    && !(ActiveRedirect(e).Some? && ActiveRedirect(e).value.Abs?)
  }

  /** The upper node after ovl_set_redirect or the opaque mark, before it is moved to a directory that is a
      merge directory or not. */
  function Mark(e: Entry, name: string, lowerPath: Path, sameDir: bool, toMerge: bool): Node
    requires e.Entry? && e.upper.Some?
  {
    var node := e.upper.value;
    if !node.Dir? then node
    else if e.lower != [] then
      if NeedsPath(e, sameDir) then node.(redirect := Some(Join(lowerPath)))
      else if ActiveRedirect(e).Some? then node
      else node.(redirect := Some(name))
    else if !e.isOpaque && toMerge then node.(isOpaque := true)
    else node
  }

  /** The same content: what the dentries show, and all below them. */
  predicate SameContent(a: Entry, b: Entry) {
    SameBelow(a, b) && Observe(a) == Observe(b)
  }

  /** Moving a directory with lower layers takes redirects, so they must be followed. */
  predicate Followed(lo: Lowers, e: Entry) {
    e.IsDir() && e.lower != [] ==> lo.follow
  }

  /** Marked, the node has the same content in its new directory as in its old one. */
  lemma MarkedContent(lo: Lowers, from: seq<LPath>, fromPath: Path, name: string, node: Node, lowerPath: Path,
                      to: seq<LPath>, toName: string, sameDir: bool, toMerge: bool)
    requires LayersOk(lo) && StackOk(from, |lo.roots|) && StackOk(to, |lo.roots|) && ValidName(name) && !node.Whiteout?
    requires var e := Meet(lo, from, name, Some(node));
      && e.Entry? && Followed(lo, e)
      && (e.lower != [] ==> lowerPath != [] && ValidPath(lowerPath) && Trail(lo.roots, 0, lowerPath, true) == Ok(e.lower))
      && (e.lower != [] && ActiveRedirect(e).None? ==> Trail(lo.roots, 0, fromPath, true) == Ok(from))
    requires (from == to && name == toName) || ((sameDir ==> to == from) && (toMerge || to == []))
    ensures var e := Meet(lo, from, name, Some(node));
      SameContent(e, Meet(lo, to, toName, Some(Mark(e, name, lowerPath, sameDir, toMerge))))
  {
    var e := Meet(lo, from, name, Some(node));
    ActiveIsValid(e);
    if node.Dir? && e.lower != [] {
      var m := Mark(e, name, lowerPath, sameDir, toMerge);
      if NeedsPath(e, sameDir) {
        ParseIffText(m.redirect.value, Abs(lowerPath));
        AbsoluteMark(lo, to, toName, lowerPath, m);
      } else if ActiveRedirect(e).None? {
        ParseIffText(name, Rel(name));
        MeetIsTrail(lo, from, fromPath, name, Some(node));
        MeetIsTrail(lo, from, fromPath, toName, Some(m));
      }
    }
  }

  lemma AbsoluteMark(lo: Lowers, to: seq<LPath>, toName: string, cs: Path, m: Node)
    requires LayersOk(lo) && lo.follow && cs != [] && m.Dir? && !m.isOpaque && m.redirect.Some? && Parse(m.redirect.value) == Some(Abs(cs))
    ensures Meet(lo, to, toName, Some(m)) == WithUpper(Some(m), Trail(lo.roots, 0, cs, true))
  {
    LowerLoopIsTrail(lo.roots, 0, NameLook(lo, to, toName, true).(name := Abs(cs), redirected := true));
  }

  lemma UpperDentryFacts(lo: Lowers, u: Node, dir: Path, name: string)
    requires LayersOk(lo) && u.Dir? && At(lo, u, dir).UpperDir()
    requires var e := At(lo, u, dir + [name]); e.Entry? && e.upper.Some?
    ensures var e := At(lo, u, dir + [name]);
      && !e.upper.value.Whiteout? && AllDirs(e.lower)
      && Meet(lo, At(lo, u, dir).lower, name, e.upper) == e
  {
    ResolveLast(lo, RootEntry(lo, u), dir, name);
    ResolveOk(lo, RootEntry(lo, u), dir + [name]);
  }

  lemma MarkedNode(lo: Lowers, u: Node, dir: Path, name: string, to: seq<LPath>, toName: string, sameDir: bool, toMerge: bool)
    requires LayersOk(lo) && u.Dir? && ValidPath(dir + [name])
    requires At(lo, u, dir).UpperDir()
    requires var e := At(lo, u, dir + [name]); e.Entry? && e.upper.Some? && Followed(lo, e)
    requires var from := At(lo, u, dir).lower;
      (from == to && name == toName) || ((sameDir ==> to == from) && (toMerge || to == []))
    requires StackOk(to, |lo.roots|)
    ensures var e := At(lo, u, dir + [name]);
      SameContent(e, Meet(lo, to, toName, Some(Mark(e, name, LowerPath(lo, u, dir + [name]), sameDir, toMerge))))
  {
    var path, p := dir + [name], At(lo, u, dir);
    var e := At(lo, u, path);
    UpperDentryFacts(lo, u, dir, name);
    ResolveOk(lo, RootEntry(lo, u), dir);
    IncreasingFits(p.lower, 1, |lo.roots|);
    assert ValidName(path[|path| - 1]);
    if e.lower != [] {
      PartsRenderLowerPath(lo, u, path);
      LowerPathReaches(lo, u, path);
      if ActiveRedirect(e).None? {
        ResolveLast(lo, RootEntry(lo, u), dir, name);
        ParentHasLower(lo, p, name);
        LowerPathReaches(lo, u, dir);
      }
    }
    MarkedContent(lo, p.lower, LowerPath(lo, u, dir), name, e.upper.value, LowerPath(lo, u, path), to, toName, sameDir, toMerge);
  }

  lemma SameContentTransitive(a: Entry, b: Entry, c: Entry)
    requires SameContent(a, b) && SameContent(a, c)
    ensures SameContent(b, c)
  {
  }

  lemma RedirectKept(a: Entry, b: Entry)
    requires EntryCopied(a, b)
    ensures ActiveRedirect(b) == ActiveRedirect(a)
  {
  }

  /** Copy-up, or a change elsewhere, does not alter where a dentry comes from. */
  lemma {:induction false} LowerPathKept(lo: Lowers, u: Node, u': Node, path: Path)
    requires LayersOk(lo) && u.Dir? && u'.Dir?
    requires forall i | 0 <= i <= |path| :: EntryCopied(At(lo, u, path[..i]), At(lo, u', path[..i]))
    ensures LowerPath(lo, u', path) == LowerPath(lo, u, path)
    ensures Parts(lo, u', path) == Parts(lo, u, path)
    decreases |path|
  {
    if path != [] {
      var dir := path[..|path| - 1];
      forall i | 0 <= i <= |dir| ensures EntryCopied(At(lo, u, dir[..i]), At(lo, u', dir[..i])) {
        assert dir[..i] == path[..i];
      }
      LowerPathKept(lo, u, u', dir);
      assert path[..|path|] == path;
      RedirectKept(At(lo, u, path[..|path|]), At(lo, u', path[..|path|]));
    }
  }

  // ---------- the plain tree ----------

  /** What a plain tree shows at q after path has been removed from it. */
  function RemovedObs(lo: Lowers, u: Node, path: Path, q: Path): Obs
    requires LayersOk(lo) && u.Dir?
  {
    if path <= q then Absent else View(lo, u, q)
  }

  /** ... after a childless object has been created at path. */
  function CreatedObs(lo: Lowers, u: Node, path: Path, o: Obs, q: Path): Obs
    requires LayersOk(lo) && u.Dir?
  {
    if q == path then o else RemovedObs(lo, u, path, q)
  }

  /** ... after the subtree at old has been moved to new. */
  function RenamedObs(lo: Lowers, u: Node, old_: Path, new_: Path, q: Path): Obs
    requires LayersOk(lo) && u.Dir?
  {
    if new_ <= q then View(lo, u, old_ + q[|new_|..]) else RemovedObs(lo, u, old_, q)
  }

  /** ... after the subtrees at old and new have changed places. */
  function ExchangedObs(lo: Lowers, u: Node, old_: Path, new_: Path, q: Path): Obs
    requires LayersOk(lo) && u.Dir?
  {
    if new_ <= q then View(lo, u, old_ + q[|new_|..])
    else if old_ <= q then View(lo, u, new_ + q[|old_|..])
    else View(lo, u, q)
  }

  lemma PutNothing(lo: Lowers, u: Node, dir: Path, name: string, v: Option<Node>)
    requires LayersOk(lo) && u.Dir? && At(lo, u, dir).UpperDir() && HasDir(u, dir)
    requires Meet(lo, At(lo, u, dir).lower, name, v).IsNegative()
    ensures forall q {:trigger View(lo, Put(u, dir, name, v), q)} :: View(lo, Put(u, dir, name, v), q) == RemovedObs(lo, u, dir + [name], q)
  {
    forall q ensures View(lo, Put(u, dir, name, v), q) == RemovedObs(lo, u, dir + [name], q) {
      PutView(lo, u, dir, name, v, q);
      if dir + [name] <= q {
        NegativeBelow(lo, Meet(lo, At(lo, u, dir).lower, name, v), q[|dir| + 1..]);
      }
    }
  }

  /** At q, u' shows e's subtree below path and what u shows elsewhere. */
  ghost predicate Grafted(lo: Lowers, u: Node, u': Node, path: Path, e: Entry, q: Path)
    requires LayersOk(lo) && u.Dir? && u'.Dir?
  {
    View(lo, u', q) == if path <= q then Observe(Resolve(lo, e, q[|path|..])) else View(lo, u, q)
  }

  /** Putting a node with some dentry's content at dir/name shows that dentry's subtree there. */
  lemma PutContent(lo: Lowers, u: Node, dir: Path, name: string, v: Option<Node>, e: Entry, q: Path)
    requires LayersOk(lo) && u.Dir? && At(lo, u, dir).UpperDir() && HasDir(u, dir)
    requires SameContent(e, Meet(lo, At(lo, u, dir).lower, name, v))
    ensures Grafted(lo, u, Put(u, dir, name, v), dir + [name], e, q)
  {
    PutView(lo, u, dir, name, v, q);
    if dir + [name] <= q && q[|dir| + 1..] != [] {
      ResolveSame(lo, e, Meet(lo, At(lo, u, dir).lower, name, v), q[|dir| + 1..]);
    }
  }

  lemma PutSame(lo: Lowers, u: Node, dir: Path, name: string, v: Option<Node>)
    requires LayersOk(lo) && u.Dir? && At(lo, u, dir).UpperDir() && HasDir(u, dir)
    requires SameContent(At(lo, u, dir + [name]), Meet(lo, At(lo, u, dir).lower, name, v))
    ensures SameView(lo, u, Put(u, dir, name, v))
  {
    forall q ensures View(lo, Put(u, dir, name, v), q) == View(lo, u, q) {
      PutContent(lo, u, dir, name, v, At(lo, u, dir + [name]), q);
      if dir + [name] <= q {
        AtBelow(lo, u, dir, name, q);
      }
    }
  }

  predicate Unrelated(od: Path, on: string, nd: Path, nn: string) {
    !(od + [on] <= nd) && !(nd + [nn] <= od) && od + [on] != nd + [nn]
  }

  lemma PrefixOfExtension(a: Path, dir: Path, name: string)
    ensures a <= dir + [name] <==> a <= dir || a == dir + [name]
  {
    if a <= dir + [name] && |a| <= |dir| {
      assert a == (dir + [name])[..|a|] == dir[..|a|];
    }
    if a <= dir {
      assert dir + [name] == a + (dir[|a|..] + [name]);
    }
  }

  lemma PrefixesCompare(a: Path, b: Path, q: Path)
    requires a <= q && b <= q
    ensures a <= b || b <= a
  {
    if |a| <= |b| {
      assert a == q[..|a|] == b[..|a|];
    } else {
      assert b == q[..|b|] == a[..|b|];
    }
  }

  lemma UnrelatedPaths(od: Path, on: string, nd: Path, nn: string, q: Path)
    requires Unrelated(od, on, nd, nn)
    ensures !(od + [on] <= q && nd + [nn] <= q)
    ensures !(od + [on] <= nd + [nn]) && !(nd + [nn] <= od + [on])
  {
    PrefixOfExtension(od + [on], nd, nn);
    PrefixOfExtension(nd + [nn], od, on);
    if od + [on] <= q && nd + [nn] <= q {
      PrefixesCompare(od + [on], nd + [nn], q);
    }
  }

  /** A change at od/on leaves another directory nd in place, with its lower stack. */
  lemma OtherParent(lo: Lowers, u: Node, od: Path, on: string, x: Option<Node>, nd: Path)
    requires LayersOk(lo) && u.Dir? && !(od + [on] <= nd)
    requires HasDir(u, od) && At(lo, u, nd).UpperDir()
    ensures var u1 := Put(u, od, on, x);
      At(lo, u1, nd).UpperDir() && At(lo, u1, nd).lower == At(lo, u, nd).lower && HasDir(u1, nd)
  {
    PutElsewhere(lo, u, od, on, x, nd);
    UpperDirHasDir(lo, RootEntry(lo, Put(u, od, on, x)), nd);
  }

  lemma SubtreeView(lo: Lowers, u: Node, path: Path, t: Path)
    requires LayersOk(lo) && u.Dir?
    ensures Observe(Resolve(lo, At(lo, u, path), t)) == View(lo, u, path + t)
  {
    ResolveConcat(lo, RootEntry(lo, u), path, t);
  }

  lemma GraftsMove(lo: Lowers, u: Node, u1: Node, u2: Node, old_: Path, new_: Path, q: Path)
    requires LayersOk(lo) && u.Dir? && u1.Dir? && u2.Dir?
    requires View(lo, u1, q) == RemovedObs(lo, u, old_, q)
    requires Grafted(lo, u1, u2, new_, At(lo, u, old_), q)
    ensures View(lo, u2, q) == RenamedObs(lo, u, old_, new_, q)
  {
    if new_ <= q {
      SubtreeView(lo, u, old_, q[|new_|..]);
    }
  }

  lemma GraftsExchange(lo: Lowers, u: Node, u1: Node, u2: Node, old_: Path, new_: Path, q: Path)
    requires LayersOk(lo) && u.Dir? && u1.Dir? && u2.Dir?
    requires Grafted(lo, u, u1, old_, At(lo, u, new_), q)
    requires Grafted(lo, u1, u2, new_, At(lo, u, old_), q)
    ensures View(lo, u2, q) == ExchangedObs(lo, u, old_, new_, q)
  {
    if new_ <= q {
      SubtreeView(lo, u, old_, q[|new_|..]);
    } else if old_ <= q {
      SubtreeView(lo, u, new_, q[|old_|..]);
    }
  }

  /** The atomic upper rename: x is left at the old name, the marked node m arrives at the new one. */
  lemma MoveView(lo: Lowers, u: Node, od: Path, on: string, nd: Path, nn: string, x: Option<Node>, m: Node, q: Path)
    requires LayersOk(lo) && u.Dir? && Unrelated(od, on, nd, nn)
    requires At(lo, u, od).UpperDir() && At(lo, u, nd).UpperDir() && HasDir(u, od)
    requires Meet(lo, At(lo, u, od).lower, on, x).IsNegative()
    requires SameContent(At(lo, u, od + [on]), Meet(lo, At(lo, u, nd).lower, nn, Some(m)))
    ensures HasDir(Put(u, od, on, x), nd)
    ensures View(lo, Put(Put(u, od, on, x), nd, nn, Some(m)), q) == RenamedObs(lo, u, od + [on], nd + [nn], q)
  {
    OtherParent(lo, u, od, on, x, nd);
    var u1 := Put(u, od, on, x);
    PutNothing(lo, u, od, on, x);
    PutContent(lo, u1, nd, nn, Some(m), At(lo, u, od + [on]), q);
    GraftsMove(lo, u, u1, Put(u1, nd, nn, Some(m)), od + [on], nd + [nn], q);
  }

  /** RENAME_EXCHANGE of two marked nodes. */
  lemma ExchangeView(lo: Lowers, u: Node, od: Path, on: string, nd: Path, nn: string, mo: Node, mn: Node, q: Path)
    requires LayersOk(lo) && u.Dir? && Unrelated(od, on, nd, nn)
    requires At(lo, u, od).UpperDir() && At(lo, u, nd).UpperDir() && HasDir(u, od)
    requires SameContent(At(lo, u, nd + [nn]), Meet(lo, At(lo, u, od).lower, on, Some(mn)))
    requires SameContent(At(lo, u, od + [on]), Meet(lo, At(lo, u, nd).lower, nn, Some(mo)))
    ensures HasDir(Put(u, od, on, Some(mn)), nd)
    ensures View(lo, Put(Put(u, od, on, Some(mn)), nd, nn, Some(mo)), q) == ExchangedObs(lo, u, od + [on], nd + [nn], q)
  {
    OtherParent(lo, u, od, on, Some(mn), nd);
    var u1 := Put(u, od, on, Some(mn));
    PutContent(lo, u, od, on, Some(mn), At(lo, u, nd + [nn]), q);
    PutContent(lo, u1, nd, nn, Some(mo), At(lo, u, od + [on]), q);
    GraftsExchange(lo, u, u1, Put(u1, nd, nn, Some(mo)), od + [on], nd + [nn], q);
  }
}
