/** Where whiteouts are: only in directories that lie over lower ones, or did when they were copied up. What rmdir and
    rename take for an empty directory rests on this. */
module Whiteouts {
  import opened Paths
  import opened Layers
  import opened LayerPaths
  import opened MergedView
  import opened UpperSteps
  import opened Moves

  /** The part of ovl_pure_upper that lookup and copy-up compute: OVL_WHITEOUTS. */
  predicate MayHoldWhiteouts(e: Entry) {
    e.Entry? && (
      || (e.upper.Some? && e.lower != [])
      || |e.lower| > 1
      || (if e.upper.Some? then e.upper.value.Dir? && e.upper.value.origin
          else e.lower != [] && e.lower[0].node.Dir? && e.lower[0].node.origin))
  }

  predicate PureUpper(e: Entry) {
    e.Entry? && e.lower == [] && !MayHoldWhiteouts(e)
  }

  predicate IsWhiteout(e: Entry) {
    e.IsNegative() && e.isOpaque
  }

  /** A whiteout in an upper directory that has nothing below it, and had nothing when it was made. */
  predicate Stray(e: Entry, name: string) {
    && e.UpperDir() && e.lower == [] && !e.upper.value.origin
    && name in e.upper.value.kids && e.upper.value.kids[name].Whiteout?
  }

  ghost predicate NoStray(e: Entry) {
    forall name :: !Stray(e, name)
  }

  /** No stray whiteouts in the upper tree, but for the ones in holes. */
  ghost predicate CleanBut(lo: Lowers, u: Node, holes: set<Path>)
    requires LayersOk(lo) && u.Dir?
  {
    forall q, name :: Stray(At(lo, u, q), name) ==> q + [name] in holes
  }

  ghost predicate Clean(lo: Lowers, u: Node)
    requires LayersOk(lo) && u.Dir?
  {
    CleanBut(lo, u, {})
  }

  /** No stray whiteouts at or below a dentry. */
  ghost predicate CleanBelow(lo: Lowers, e: Entry) {
    forall t :: NoStray(Resolve(lo, e, t))
  }

  lemma CleanAt(lo: Lowers, u: Node, path: Path)
    requires LayersOk(lo) && u.Dir? && Clean(lo, u)
    ensures CleanBelow(lo, At(lo, u, path))
  {
    forall t ensures NoStray(Resolve(lo, At(lo, u, path), t)) {
      ResolveConcat(lo, RootEntry(lo, u), path, t);
      assert At(lo, u, path + t) == Resolve(lo, At(lo, u, path), t);
      var holes: set<Path> := {};
      assert forall name :: Stray(At(lo, u, path + t), name) ==> (path + t) + [name] in holes;
    }
  }

  lemma LeafClean(lo: Lowers, e: Entry)
    requires !e.UpperDir()
    ensures CleanBelow(lo, e)
  {
    forall t ensures NoStray(Resolve(lo, e, t)) {
      if e.Bad? {
        BadBelow(lo, e, t);
      } else if Resolve(lo, e, t).UpperDir() {
        UpperDirHasDir(lo, e, t);
      }
    }
  }

  lemma EmptyClean(lo: Lowers, e: Entry)
    requires e.UpperDir() && e.upper.value.kids == map[]
    ensures CleanBelow(lo, e)
  {
    forall t ensures NoStray(Resolve(lo, e, t)) {
      if t != [] {
        LeafClean(lo, Child(lo, e, t[0]));
        assert NoStray(Resolve(lo, Child(lo, e, t[0]), t[1..]));
      }
    }
  }

  /** The same content, with the same mark of its origin. */
  lemma SameClean(lo: Lowers, a: Entry, b: Entry)
    requires SameContent(a, b) && CleanBelow(lo, a)
    requires b.UpperDir() ==> a.UpperDir() && b.upper.value.origin == a.upper.value.origin
    ensures CleanBelow(lo, b)
  {
    forall t ensures NoStray(Resolve(lo, b, t)) {
      assert NoStray(Resolve(lo, a, t));
      if t != [] {
        ResolveSame(lo, a, b, t);
      } else {
        forall name ensures !Stray(b, name) {
          assert !Stray(a, name);
        }
      }
    }
  }

  /** One change of the upper tree leaves it clean if what is put there is, and a whiteout is put only over lower layers. */
  lemma PutClean(lo: Lowers, u: Node, dir: Path, name: string, v: Option<Node>, holes: set<Path>, holes': set<Path>)
    requires LayersOk(lo) && u.Dir? && At(lo, u, dir).UpperDir() && HasDir(u, dir)
    requires CleanBut(lo, u, holes) && CleanBelow(lo, Meet(lo, At(lo, u, dir).lower, name, v))
    requires holes - {dir + [name]} <= holes'
    requires v == Some(Whiteout) ==> At(lo, u, dir).lower != [] || dir + [name] in holes'
    ensures CleanBut(lo, Put(u, dir, name, v), holes')
  {
    forall q, c ensures Stray(At(lo, Put(u, dir, name, v), q), c) ==> q + [c] in holes' {
      if dir + [name] <= q {
        PutView(lo, u, dir, name, v, q);
        assert NoStray(Resolve(lo, Meet(lo, At(lo, u, dir).lower, name, v), q[|dir| + 1..]));
      } else if Stray(At(lo, Put(u, dir, name, v), q), c) {
        PutStray(lo, u, dir, name, v, q, c);
      }
    }
  }

  /** Outside what is changed, only the changed name itself can become a stray whiteout. */
  lemma PutStray(lo: Lowers, u: Node, dir: Path, name: string, v: Option<Node>, q: Path, c: string)
    requires LayersOk(lo) && u.Dir? && HasDir(u, dir) && !(dir + [name] <= q)
    requires Stray(At(lo, Put(u, dir, name, v), q), c)
    ensures if q == dir && c == name then v == Some(Whiteout) && At(lo, u, dir).Entry? && At(lo, u, dir).lower == []
            else Stray(At(lo, u, q), c) && q + [c] != dir + [name]
  {
    ResolvePut(lo, RootEntry(lo, u), dir, name, v, q);
    LastComponents(q, c, dir, name);
    var a := At(lo, u, q);
    if a.Entry? && q <= dir {
      var rest := dir[|q|..];
      assert dir == q + rest;
      if rest == [] {
        assert q == dir;
      } else {
        PutKeepsKinds(a.upper.value, rest, name, v, c);
      }
    }
  }

  lemma LastComponents(q: Path, c: string, dir: Path, name: string)
    ensures q + [c] == dir + [name] <==> q == dir && c == name
  {
    if q + [c] == dir + [name] {
      assert q == (q + [c])[..|q|] == (dir + [name])[..|dir|] == dir;
      assert c == (q + [c])[|q|];
    }
  }

  lemma PutKeepsKinds(root: Node, dir: Path, name: string, v: Option<Node>, c: string)
    requires dir != [] && HasDir(root, dir)
    ensures var r := Put(root, dir, name, v);
      (c in r.kids <==> c in root.kids) && (c in root.kids ==> (r.kids[c].Whiteout? <==> root.kids[c].Whiteout?))
  {
  }

  // ---------- the changes ----------

  /** Nothing, a file or an empty directory. */
  lemma MadeClean(lo: Lowers, u: Node, dir: Path, name: string, v: Option<Node>)
    requires LayersOk(lo) && u.Dir? && At(lo, u, dir).UpperDir() && HasDir(u, dir)
    requires v.None? || v.value.File? || (v.value.Dir? && v.value.kids == map[]) || (v.value.Whiteout? && At(lo, u, dir).lower != [])
    ensures Clean(lo, u) ==> Clean(lo, Put(u, dir, name, v))
  {
    if Clean(lo, u) {
      LeafOrEmpty(lo, At(lo, u, dir).lower, name, v);
      PutClean(lo, u, dir, name, v, {}, {});
    }
  }

  lemma LeafOrEmpty(lo: Lowers, lower: seq<LPath>, name: string, v: Option<Node>)
    requires v.Some? && v.value.Dir? ==> v.value.kids == map[]
    ensures CleanBelow(lo, Meet(lo, lower, name, v))
  {
    var e := Meet(lo, lower, name, v);
    if e.UpperDir() {
      EmptyClean(lo, e);
    } else {
      LeafClean(lo, e);
    }
  }

  /** A marked node. */
  lemma MarkClean(lo: Lowers, u: Node, dir: Path, name: string, m: Node)
    requires LayersOk(lo) && u.Dir? && At(lo, u, dir).UpperDir() && HasDir(u, dir)
    requires var e := At(lo, u, dir + [name]); e.Entry? && e.upper.Some? && (m.Dir? ==> e.upper.value.Dir? && m.origin == e.upper.value.origin)
    requires !m.Whiteout? && SameContent(At(lo, u, dir + [name]), Meet(lo, At(lo, u, dir).lower, name, Some(m)))
    ensures Clean(lo, u) ==> Clean(lo, Put(u, dir, name, Some(m)))
  {
    if Clean(lo, u) {
      CleanAt(lo, u, dir + [name]);
      SameClean(lo, At(lo, u, dir + [name]), Meet(lo, At(lo, u, dir).lower, name, Some(m)));
      PutClean(lo, u, dir, name, Some(m), {}, {});
    }
  }

  /** A node with the content of a dentry of a clean tree is put into another. */
  lemma DentryArrives(lo: Lowers, u0: Node, path: Path, u: Node, dir: Path, name: string, m: Node, holes: set<Path>)
    requires LayersOk(lo) && u0.Dir? && Clean(lo, u0)
    requires u.Dir? && At(lo, u, dir).UpperDir() && HasDir(u, dir) && CleanBut(lo, u, holes)
    requires At(lo, u0, path).Entry? && At(lo, u0, path).upper == Some(m)
    requires SameContent(At(lo, u0, path), Meet(lo, At(lo, u, dir).lower, name, Some(m)))
    ensures CleanBut(lo, Put(u, dir, name, Some(m)), holes)
  {
    CleanAt(lo, u0, path);
    ResolveOk(lo, RootEntry(lo, u0), path);
    SameClean(lo, At(lo, u0, path), Meet(lo, At(lo, u, dir).lower, name, Some(m)));
    PutClean(lo, u, dir, name, Some(m), holes, holes);
  }
}
