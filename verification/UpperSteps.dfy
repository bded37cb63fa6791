/** What single changes of the upper tree do to the merged view: copy-up, emptying, whiteouts, moves. */
module UpperSteps {
  import opened Paths
  import opened Layers
  import opened LayerPaths
  import opened MergedView

  function At(lo: Lowers, upper: Node, path: Path): Entry
    requires LayersOk(lo) && upper.Dir?
  {
    Resolve(lo, RootEntry(lo, upper), path)
  }

  /** A dentry has an upper directory only if the real upper tree has directories all the way. */
  lemma {:induction false} UpperDirHasDir(lo: Lowers, e: Entry, path: Path)
    requires e.Entry? && Resolve(lo, e, path).UpperDir()
    ensures e.UpperDir() && HasDir(e.upper.value, path)
    decreases |path|
  {
    if path != [] {
      var c := Child(lo, e, path[0]);
      if c.Bad? {
        BadBelow(lo, c, path[1..]);
      } else {
        UpperDirHasDir(lo, c, path[1..]);
      }
    }
  }

  /** One change at dir/name: everything outside keeps its view, everything below starts from what the
      new upper node means there. */
  lemma PutView(lo: Lowers, u: Node, dir: Path, name: string, v: Option<Node>, q: Path)
    requires LayersOk(lo) && u.Dir? && At(lo, u, dir).UpperDir()
    ensures HasDir(u, dir)
    ensures var u' := Put(u, dir, name, v);
      if dir + [name] <= q then
        At(lo, u', q) == Resolve(lo, Meet(lo, At(lo, u, dir).lower, name, v), q[|dir| + 1..])
      else
        View(lo, u', q) == View(lo, u, q)
  {
    var e := RootEntry(lo, u);
    UpperDirHasDir(lo, e, dir);
    var u' := Put(u, dir, name, v);
    if dir + [name] <= q {
      assert q == dir + [name] + q[|dir| + 1..];
      ResolvePut(lo, e, dir, name, v, dir);
      assert dir[|dir|..] == [];
      ResolveConcat(lo, RootEntry(lo, u'), dir + [name], q[|dir| + 1..]);
      ResolveLast(lo, RootEntry(lo, u'), dir, name);
    } else {
      ResolvePut(lo, e, dir, name, v, q);
    }
  }

  /** A dentry elsewhere keeps its lower stack and flags; only real directories above the change differ. */
  lemma PutElsewhere(lo: Lowers, u: Node, dir: Path, name: string, v: Option<Node>, q: Path)
    requires LayersOk(lo) && u.Dir? && HasDir(u, dir) && !(dir + [name] <= q)
    ensures EntryCopied(At(lo, u, q), At(lo, Put(u, dir, name, v), q))
    ensures var a, b := At(lo, u, q), At(lo, Put(u, dir, name, v), q);
      a.Entry? ==> b.lower == a.lower && (a.UpperDir() <==> b.UpperDir())
    ensures !(q <= dir) ==> At(lo, Put(u, dir, name, v), q) == At(lo, u, q)
  {
    ResolvePut(lo, RootEntry(lo, u), dir, name, v, q);
  }

  lemma AtBelow(lo: Lowers, u: Node, dir: Path, name: string, q: Path)
    requires LayersOk(lo) && u.Dir? && dir + [name] <= q
    ensures q == dir + [name] + q[|dir| + 1..]
    ensures At(lo, u, q) == Resolve(lo, At(lo, u, dir + [name]), q[|dir| + 1..])
  {
    assert q == dir + [name] + q[|dir| + 1..];
    ResolveConcat(lo, RootEntry(lo, u), dir + [name], q[|dir| + 1..]);
  }

  /** Two real directories with the same attributes. */
  predicate SameDir(a: Node, b: Node) {
    a.Dir? && b.Dir? && a.isOpaque == b.isOpaque && a.redirect == b.redirect && a.origin == b.origin
  }

  ghost predicate SameView(lo: Lowers, u: Node, u': Node)
    requires LayersOk(lo) && u.Dir? && u'.Dir?
  {
    forall q :: View(lo, u', q) == View(lo, u, q)
  }

  // ---------- copy-up ----------

  function CopyOf(e: Entry): Option<Node> {
    if e.Bad? || e.lower == [] then None
    else if e.lower[0].node.File? then Some(e.lower[0].node)
    else Some(Dir(false, None, true, map[]))
  }

  /** b is the same dentry as a, except that it or something above or below it may have been copied up. */
  predicate EntryCopied(a: Entry, b: Entry) {
    if a.Bad? then b == a
    else
      && b.Entry? && b.isOpaque == a.isOpaque && Observe(b) == Observe(a)
      && if a.upper.Some? then
           && b.upper.Some? && b.lower == a.lower
           && (b.upper == a.upper || SameDir(a.upper.value, b.upper.value))
         else if b.upper.None? then b == a
         else if a.lower != [] && a.lower[0].node.File? then b.upper == Some(a.lower[0].node) && b.lower == []
         else a.IsDir() && b.lower == a.lower && SameDir(b.upper.value, Dir(false, None, true, map[]))
  }

  ghost predicate CopiedUp(lo: Lowers, u: Node, u': Node)
    requires LayersOk(lo) && u.Dir? && u'.Dir?
  {
    forall q {:trigger EntryCopied(At(lo, u, q), At(lo, u', q))} :: EntryCopied(At(lo, u, q), At(lo, u', q))
  }

  lemma CopiedUpSameView(lo: Lowers, u: Node, u': Node)
    requires LayersOk(lo) && u.Dir? && u'.Dir? && CopiedUp(lo, u, u')
    ensures SameView(lo, u, u')
  {
    forall q ensures View(lo, u', q) == View(lo, u, q) {
      assert EntryCopied(At(lo, u, q), At(lo, u', q));
    }
  }

  lemma CopiedUpTransitive(lo: Lowers, u: Node, u': Node, u'': Node)
    requires LayersOk(lo) && u.Dir? && u'.Dir? && u''.Dir?
    requires CopiedUp(lo, u, u') && CopiedUp(lo, u', u'')
    ensures CopiedUp(lo, u, u'')
  {
    forall q ensures EntryCopied(At(lo, u, q), At(lo, u'', q)) {
      assert EntryCopied(At(lo, u, q), At(lo, u', q));
      assert EntryCopied(At(lo, u', q), At(lo, u'', q));
    }
  }

  /** Copying one dentry up, its parent being up already, changes no view and no other dentry. */
  lemma CopyUpOne(lo: Lowers, u: Node, dir: Path, name: string)
    requires LayersOk(lo) && u.Dir? && At(lo, u, dir).UpperDir()
    requires var e := At(lo, u, dir + [name]); e.Entry? && e.upper.None? && e.lower != []
    ensures HasDir(u, dir)
    ensures var u' := Put(u, dir, name, CopyOf(At(lo, u, dir + [name])));
      CopiedUp(lo, u, u') && At(lo, u', dir + [name]).Entry? && At(lo, u', dir + [name]).upper == CopyOf(At(lo, u, dir + [name]))
    ensures var u' := Put(u, dir, name, CopyOf(At(lo, u, dir + [name])));
      forall q | !(q <= dir + [name]) :: At(lo, u', q) == At(lo, u, q)
  {
    UpperDirHasDir(lo, RootEntry(lo, u), dir);
    forall q ensures EntryCopied(At(lo, u, q), At(lo, Put(u, dir, name, CopyOf(At(lo, u, dir + [name]))), q)) {
      CopyUpOneAt(lo, u, dir, name, q);
    }
    CopyUpOneAt(lo, u, dir, name, dir + [name]);
    forall q | !(q <= dir + [name])
      ensures At(lo, Put(u, dir, name, CopyOf(At(lo, u, dir + [name]))), q) == At(lo, u, q)
    {
      CopyUpOneAt(lo, u, dir, name, q);
    }
  }

  lemma CopyUpOneAt(lo: Lowers, u: Node, dir: Path, name: string, q: Path)
    requires LayersOk(lo) && u.Dir? && At(lo, u, dir).UpperDir() && HasDir(u, dir)
    requires var e := At(lo, u, dir + [name]); e.Entry? && e.upper.None? && e.lower != []
    ensures var e := At(lo, u, dir + [name]);
      var b := At(lo, Put(u, dir, name, CopyOf(e)), q);
      && EntryCopied(At(lo, u, q), b)
      && (q == dir + [name] ==> b.Entry? && b.upper == CopyOf(e))
      && (!(q <= dir + [name]) ==> b == At(lo, u, q))
  {
    assert dir <= dir + [name];
    var e := At(lo, u, dir + [name]);
    if dir + [name] <= q {
      CopyUpOneChild(lo, u, dir, name);
      PutView(lo, u, dir, name, CopyOf(e), q);
      AtBelow(lo, u, dir, name, q);
      CopiedBelow(lo, e, Meet(lo, At(lo, u, dir).lower, name, CopyOf(e)), q[|dir| + 1..]);
    } else {
      PutElsewhere(lo, u, dir, name, CopyOf(e), q);
    }
  }

  lemma CopyUpOneChild(lo: Lowers, u: Node, dir: Path, name: string)
    requires LayersOk(lo) && u.Dir? && At(lo, u, dir).UpperDir()
    requires var e := At(lo, u, dir + [name]); e.Entry? && e.upper.None? && e.lower != []
    ensures var e := At(lo, u, dir + [name]);
      var e' := Meet(lo, At(lo, u, dir).lower, name, CopyOf(e));
      EntryCopied(e, e') && e'.upper == CopyOf(e) && (e.IsDir() ==> e'.upper == Some(Dir(false, None, true, map[])))
  {
    var r := RootEntry(lo, u);
    ResolveLast(lo, r, dir, name);
    ResolveOk(lo, r, dir);
    ResolveOk(lo, r, dir + [name]);
    CopiedChild(lo, At(lo, u, dir), name);
  }

  lemma CopiedChild(lo: Lowers, p: Entry, name: string)
    requires LayersOk(lo) && EntryOk(p, |lo.roots|) && p.UpperDir() && UpperAt(p, name).None?
    requires var e := Child(lo, p, name); e.Entry? && e.upper.None? && e.lower != [] && (AllDirs(e.lower) || OneFile(e.lower))
    ensures var e := Child(lo, p, name);
      var e' := Meet(lo, p.lower, name, CopyOf(e));
      EntryCopied(e, e') && e'.upper == CopyOf(e) && (e.IsDir() ==> e'.upper == Some(Dir(false, None, true, map[])))
  {
    if AllDirs(Child(lo, p, name).lower) {
      IncreasingFits(p.lower, 1, |lo.roots|);
      MeetFresh(lo, p.lower, name, Dir(false, None, true, map[]));
    }
  }

  lemma CopiedBelow(lo: Lowers, e: Entry, e': Entry, t: Path)
    requires e.Entry? && e.upper.None? && EntryCopied(e, e')
    requires e.IsDir() ==> e'.UpperDir() && e'.upper.value.kids == map[]
    ensures EntryCopied(Resolve(lo, e, t), Resolve(lo, e', t))
    ensures t != [] ==> Resolve(lo, e', t) == Resolve(lo, e, t)
  {
    if t != [] {
      assert Child(lo, e, t[0]) == Child(lo, e', t[0]);
    }
  }
}
