/** dir.c: create, remove and rename on the upper tree, proved to act on the merged view as on a plain tree. */
module OverlayDir {
  import opened Paths
  import opened Layers
  import opened LayerPaths
  import opened MergedView
  import opened UpperSteps
  import opened Moves
  import opened Whiteouts

  datatype Errno = OK | EXDEV | ENOTEMPTY | ENOTDIR | EISDIR

  predicate MergeOrLower(e: Entry) {
    e.Entry? && (e.upper.None? || e.lower != [])
  }

  /** Would the lower layers show something at this name if the upper entry were gone? */
  predicate LowerShows(parent: Entry, name: string) {
    parent.Entry? && TopLower(parent.lower, name).Some? && !TopLower(parent.lower, name).value.Whiteout?
  }

  /** What removal may remove: no directory with visible entries, and no pure upper one with any. */
  predicate Removable(e: Entry, lowerPositive: bool) {
    e.IsDir() ==> if lowerPositive || !PureUpper(e) then MergedEmpty(e) else e.upper.Some? && e.upper.value.Dir? && e.upper.value.kids == map[]
  }

  lemma PrefixIsDir(lo: Lowers, u: Node, path: Path, i: nat)
    requires LayersOk(lo) && u.Dir? && i < |path|
    requires At(lo, u, path).Entry? && !At(lo, u, path).IsNegative()
    ensures At(lo, u, path[..i]).IsDir()
  {
    var a := At(lo, u, path[..i]);
    assert path == path[..i] + path[i..];
    ResolveConcat(lo, RootEntry(lo, u), path[..i], path[i..]);
    if a.Bad? {
      BadBelow(lo, a, path[i..]);
    } else if !a.IsDir() {
      NegativeBelow(lo, Child(lo, a, path[i]), path[i..][1..]);
    }
  }

  /** A dentry that a path walk ends at is well formed, and a directory's lower stack is in order. */
  lemma DentryOk(lo: Lowers, u: Node, path: Path)
    requires LayersOk(lo) && u.Dir?
    ensures EntryOk(At(lo, u, path), |lo.roots|)
    ensures At(lo, u, path).IsDir() ==> StackOk(At(lo, u, path).lower, |lo.roots|)
  {
    ResolveOk(lo, RootEntry(lo, u), path);
    if At(lo, u, path).IsDir() {
      IncreasingFits(At(lo, u, path).lower, 1, |lo.roots|);
    }
  }

  /** Without an upper entry, a name means what the lower layers show. */
  lemma NothingMeets(lo: Lowers, u: Node, dir: Path, name: string)
    requires LayersOk(lo) && u.Dir? && At(lo, u, dir).IsDir()
    ensures Meet(lo, At(lo, u, dir).lower, name, None).IsNegative() <==> !LowerShows(At(lo, u, dir), name)
  {
    DentryOk(lo, u, dir);
    MeetNone(lo, At(lo, u, dir).lower, name);
  }

  function NodeObs(node: Node): Obs {
    match node
    case File(id) => IsFile(id)
    case Dir(_, _, _, _) => IsDirectory
    case Whiteout => Absent
  }

  /** The directory's upper part carries an absolute redirect that lookup reads. */
  predicate KnownByPath(e: Entry) {
    && e.UpperDir() && !e.upper.value.isOpaque
    && e.upper.value.redirect.Some? && e.upper.value.redirect.value != "" && e.upper.value.redirect.value[0] == '/'
  }

  lemma KnownIff(lo: Lowers, p: Entry, name: string)
    requires LayersOk(lo) && lo.follow && EntryOk(p, |lo.roots|)
    requires Child(lo, p, name).Entry?
    ensures var e := Child(lo, p, name); KnownByPath(e) <==> ActiveRedirect(e).Some? && ActiveRedirect(e).value.Abs?
  {
  }

  ghost predicate ShowsBelow(lo: Lowers, u: Node, path: Path)
    requires LayersOk(lo) && u.Dir?
  {
    exists name :: View(lo, u, path + [name]) != Absent
  }

  /** The code's tests for an empty directory find out whether anything shows below it. */
  lemma EmptyMeans(lo: Lowers, u: Node, path: Path)
    requires LayersOk(lo) && u.Dir? && At(lo, u, path).Entry? && NoStray(At(lo, u, path))
    ensures var e := At(lo, u, path);
      && (e.IsDir() ==> (MergedEmpty(e) <==> !ShowsBelow(lo, u, path)))
      && (e.IsDir() && PureUpper(e) ==> (Occupied(e.upper) <==> ShowsBelow(lo, u, path)))
      && (!e.IsDir() ==> !ShowsBelow(lo, u, path))
  {
    var e := At(lo, u, path);
    DentryOk(lo, u, path);
    forall name ensures View(lo, u, path + [name]) == Absent <==> Child(lo, e, name).IsNegative() {
      ResolveLast(lo, RootEntry(lo, u), path, name);
      DentryOk(lo, u, path + [name]);
    }
    if e.IsDir() {
      EmptyIff(lo, e);
    }
  }

  /** No listed name is positive iff all children are negative; in a pure upper directory, iff it is physically empty. */
  lemma EmptyIff(lo: Lowers, e: Entry)
    requires LayersOk(lo) && EntryOk(e, |lo.roots|) && e.Entry? && e.IsDir() && NoStray(e)
    ensures MergedEmpty(e) <==> forall name :: Child(lo, e, name).IsNegative()
    ensures PureUpper(e) ==> (Occupied(e.upper) <==> exists name :: !Child(lo, e, name).IsNegative())
  {
    if MergedEmpty(e) {
      forall name ensures Child(lo, e, name).IsNegative() {
        MergedEmptyShowsNothing(lo, e, name);
      }
    }
    forall name ensures !Child(lo, e, name).IsNegative() <==> Topmost(e, name).Some? && !Topmost(e, name).value.Whiteout? {
      TopmostDecides(lo, e, name);
    }
    if PureUpper(e) && Occupied(e.upper) {
      var name :| name in e.upper.value.kids;
      assert !Stray(e, name);
      assert Topmost(e, name) == Some(e.upper.value.kids[name]);
    }
  }

  /** What rmdir's answer means: a directory can be removed iff nothing shows below it. */
  lemma RemovableMeans(lo: Lowers, u: Node, path: Path, lowerPositive: bool)
    requires LayersOk(lo) && u.Dir? && At(lo, u, path).Entry? && NoStray(At(lo, u, path))
    ensures Removable(At(lo, u, path), lowerPositive) <==> !ShowsBelow(lo, u, path)
  {
    EmptyMeans(lo, u, path);
  }

  class Overlay {
    const lo: Lowers
    const redirectDir: bool
    const redirectMax: nat
    var upper: Node

    ghost predicate Valid()
      reads this
    {
      LayersOk(lo) && upper.Dir? && (redirectDir ==> lo.follow)
    }

    constructor (lo: Lowers, redirectDir: bool, redirectMax: nat, upper: Node)
      requires LayersOk(lo) && upper.Dir? && (redirectDir ==> lo.follow)
      ensures Valid() && this.lo == lo && this.redirectDir == redirectDir && this.redirectMax == redirectMax && this.upper == upper
    {
      this.lo, this.redirectDir, this.redirectMax, this.upper := lo, redirectDir, redirectMax, upper;
    }

    function Dentry(path: Path): Entry
      requires Valid()
      reads this
    {
      At(lo, upper, path)
    }

    /** ovl_lower_positive */
    method LowerPositive(dir: Path, name: string) returns (positive: bool)
      requires Valid() && Dentry(dir).IsDir() && Dentry(dir + [name]).Entry?
      ensures var e := Dentry(dir + [name]);
        positive <==> if e.IsNegative() then e.isOpaque else LowerShows(Dentry(dir), name)
    {
      var e, poe := Dentry(dir + [name]), Dentry(dir).lower;
      ResolveLast(lo, RootEntry(lo, upper), dir, name);
      NothingMeets(lo, upper, dir, name);
      if e.IsNegative() {
        return e.isOpaque;
      }
      if e.upper.None? {
        return true;
      }
      positive := false;
      var done, i := false, 0;
      assert poe[0..] == poe;
      while !done && !positive && i < |poe|
        invariant 0 <= i <= |poe|
        invariant !done ==> !positive && TopLower(poe, name) == TopLower(poe[i..], name)
        invariant done ==> TopLower(poe, name).Some? && (positive <==> !TopLower(poe, name).value.Whiteout?)
      {
        var base := poe[i].node;
        if base.Dir? && name in base.kids {
          positive := !base.kids[name].Whiteout?;
          done := true;
        }
        assert poe[i..][1..] == poe[i + 1..];
        i := i + 1;
      }
    }

    /** The climb of ovl_copy_up_flags to the topmost dentry that is not copied up yet. */
    method FindTopmost(path: Path, ghost done: nat) returns (next: nat)
      requires Valid() && Dentry(path).Entry? && !Dentry(path).IsNegative() && Dentry(path).upper.None?
      requires done <= |path| && Dentry(path[..done]).Entry? && Dentry(path[..done]).upper.Some?
      ensures done < next <= |path| && Dentry(path[..next]).Entry? && Dentry(path[..next]).upper.None?
      ensures Dentry(path[..next - 1]).Entry? && Dentry(path[..next - 1]).upper.Some?
    {
      next := |path|;
      assert path[..|path|] == path;
      PrefixIsDir(lo, upper, path, next - 1);
      while Dentry(path[..next - 1]).upper.None?
        invariant done < next <= |path| && Dentry(path[..next]).Entry? && Dentry(path[..next]).upper.None?
        invariant Dentry(path[..next - 1]).IsDir()
        decreases next
      {
        next := next - 1;
        PrefixIsDir(lo, upper, path, next - 1);
      }
    }

    /** ovl_copy_up_flags: the topmost dentry that is not copied up yet goes first. */
    method CopyUp(path: Path)
      requires Valid() && Dentry(path).Entry? && !Dentry(path).IsNegative()
      modifies this`upper
      ensures Valid() && CopiedUp(lo, old(upper), upper)
      ensures old(Clean(lo, upper)) ==> Clean(lo, upper)
      ensures Dentry(path).Entry? && Dentry(path).upper.Some?
      ensures forall q | !(q <= path) :: Dentry(q) == old(Dentry(q))
      ensures if old(Dentry(path)).upper.Some? then upper == old(upper) else Dentry(path).upper == CopyOf(old(Dentry(path)))
    {
      ghost var e0 := Dentry(path);
      var done := 0;
      assert path[..0] == [];
      CopiedUpReflexive();
      while Dentry(path).upper.None?
        invariant Valid() && CopiedUp(lo, old(upper), upper)
        invariant old(Clean(lo, upper)) ==> Clean(lo, upper)
        invariant Dentry(path).Entry? && !Dentry(path).IsNegative()
        invariant (Dentry(path) == e0 && (e0.upper.Some? ==> upper == old(upper))) || (done == |path| && e0.upper.None? && Dentry(path).upper == CopyOf(e0))
        invariant forall q | !(q <= path) :: Dentry(q) == old(Dentry(q))
        invariant 0 <= done <= |path| && Dentry(path[..done]).Entry? && Dentry(path[..done]).upper.Some?
        decreases |path| - done
      {
        var next := FindTopmost(path, done);
        ghost var u := upper;
        CopyUpNext(path, next);
        CopiedUpTransitive(lo, old(upper), u, upper);
        done := next;
      }
    }

    lemma CopiedUpReflexive()
      requires Valid()
      ensures CopiedUp(lo, upper, upper)
    {
    }

    /** ovl_copy_up_one */
    method CopyUpNext(path: Path, next: nat)
      requires Valid() && Dentry(path).Entry? && !Dentry(path).IsNegative()
      requires 0 < next <= |path|
      requires Dentry(path[..next]).Entry? && Dentry(path[..next]).upper.None? && Dentry(path[..next - 1]).Entry?
      requires Dentry(path[..next - 1]).upper.Some?
      modifies this`upper
      ensures Valid() && CopiedUp(lo, old(upper), upper)
      ensures old(Clean(lo, upper)) ==> Clean(lo, upper)
      ensures Dentry(path[..next]).Entry? && Dentry(path[..next]).upper.Some?
      ensures Dentry(path).Entry? && !Dentry(path).IsNegative()
      ensures forall q | !(q <= path[..next]) :: Dentry(q) == old(Dentry(q))
      ensures if next < |path| then Dentry(path) == old(Dentry(path)) else Dentry(path).upper == CopyOf(old(Dentry(path)))
    {
      var dir, name := path[..next - 1], path[next - 1];
      assert path[..next] == dir + [name];
      PrefixIsDir(lo, upper, path, next - 1);
      if next < |path| {
        PrefixIsDir(lo, upper, path, next);
      } else {
        assert path[..next] == path;
      }
      CopyUpOne(lo, upper, dir, name);
      MadeClean(lo, upper, dir, name, CopyOf(Dentry(dir + [name])));
      ghost var u := upper;
      upper := Put(upper, dir, name, CopyOf(Dentry(dir + [name])));
      assert EntryCopied(At(lo, u, path), At(lo, upper, path));
    }

    // ---------- create ----------

    /** ovl_create_or_link: node is a file (new, or a further link to an existing one) or a fresh directory. */
    method Create(dir: Path, name: string, node: Node)
      requires Valid() && Dentry(dir).IsDir() && Dentry(dir + [name]).IsNegative()
      requires node.File? || node == Dir(false, None, false, map[])
      modifies this`upper
      ensures Valid()
      ensures old(Clean(lo, upper)) ==> Clean(lo, upper)
      ensures forall q :: View(lo, upper, q) == CreatedObs(lo, old(upper), dir + [name], NodeObs(node), q)
    {
      ghost var u0 := upper;
      CopyUp(dir);
      CopiedUpSameView(lo, u0, upper);
      assert EntryCopied(At(lo, u0, dir + [name]), At(lo, upper, dir + [name]));
      assert EntryCopied(At(lo, u0, dir), At(lo, upper, dir));
      ResolveLast(lo, RootEntry(lo, upper), dir, name);
      UpperDirHasDir(lo, RootEntry(lo, upper), dir);
      var made := node;
      if !IsWhiteout(Dentry(dir + [name])) {
        // ovl_create_upper
        if Dentry(dir).lower != [] && node.Dir? {
          // the mark spares later lookups the lower layers; nothing depends on it
          if * {
            made := node.(isOpaque := true);
          }
        }
      } else {
        // ovl_create_over_whiteout
        if node.Dir? {
          made := node.(isOpaque := true);
        }
      }
      ghost var u := upper;
      DentryOk(lo, upper, dir);
      FreshMeets(lo, Dentry(dir), name, made);
      MadeClean(lo, upper, dir, name, Some(made));
      upper := Put(upper, dir, name, Some(made));
      forall q ensures View(lo, upper, q) == CreatedObs(lo, u0, dir + [name], NodeObs(node), q) {
        CreatedView(lo, u0, u, dir, name, made, q);
      }
    }

    // ---------- remove ----------

    /** The outcome of ovl_check_empty_dir. How it is found from the merged listing is in EmptyDir, whose lemma
        ShowsNothingIsMergedEmpty says that the loop there decides just this and leaves just this list. */
    method CheckEmptyDir(e: Entry) returns (err: Errno, list: set<string>)
      requires e.IsDir()
      ensures err == if MergedEmpty(e) then OK else ENOTEMPTY
      ensures err == OK ==> list == if e.UpperDir() then e.upper.value.kids.Keys else {}
    {
      if MergedEmpty(e) {
        err, list := OK, if e.UpperDir() then e.upper.value.kids.Keys else {};
      } else {
        err, list := ENOTEMPTY, {};
      }
    }

    /** ovl_clear_empty: an opaque empty directory takes the place of one that shows nothing. */
    method ClearEmpty(dir: Path, name: string)
      requires Valid() && Dentry(dir).UpperDir() && Dentry(dir + [name]).UpperDir() && MergedEmpty(Dentry(dir + [name]))
      modifies this`upper
      ensures Valid() && SameView(lo, old(upper), upper)
      ensures old(Clean(lo, upper)) ==> Clean(lo, upper)
      ensures HasDir(old(upper), dir) && upper == Put(old(upper), dir, name, Some(Dir(true, None, false, map[])))
      ensures Dentry(dir).UpperDir() && Dentry(dir).lower == old(Dentry(dir).lower)
      ensures var e := Dentry(dir + [name]); e.Entry? && e.upper == Some(Dir(true, None, false, map[])) && e.lower == []
    {
      ghost var u := upper;
      var opaqueDir := Some(Dir(true, None, false, map[]));
      UpperDirHasDir(lo, RootEntry(lo, upper), dir);
      NotBelowParent(dir, name);
      MadeClean(lo, upper, dir, name, opaqueDir);
      upper := Put(upper, dir, name, opaqueDir);
      PutElsewhere(lo, u, dir, name, opaqueDir, dir);
      PutView(lo, u, dir, name, opaqueDir, dir + [name]);
      assert (dir + [name])[|dir| + 1..] == [];
      DentryOk(lo, u, dir + [name]);
      DentryOk(lo, upper, dir + [name]);
      forall q ensures View(lo, upper, q) == View(lo, u, q) {
        PutView(lo, u, dir, name, opaqueDir, q);
        if dir + [name] <= q {
          AtBelow(lo, u, dir, name, q);
          EmptyDirsLookAlike(lo, At(lo, u, dir + [name]), Dentry(dir + [name]), q[|dir| + 1..]);
        }
      }
    }

    /** ovl_do_remove: ovl_unlink and ovl_rmdir. */
    method Remove(dir: Path, name: string, isDir: bool) returns (err: Errno)
      requires Valid() && Dentry(dir).IsDir()
      requires var e := Dentry(dir + [name]); e.Entry? && !e.IsNegative() && (isDir <==> e.IsDir())
      modifies this`upper
      ensures Valid()
      ensures old(Clean(lo, upper)) ==> Clean(lo, upper)
      ensures err == if Removable(old(Dentry(dir + [name])), LowerShows(old(Dentry(dir)), name)) then OK else ENOTEMPTY
      ensures err == OK ==> forall q :: View(lo, upper, q) == RemovedObs(lo, old(upper), dir + [name], q)
      ensures err != OK ==> SameView(lo, old(upper), upper)
    {
      ghost var u0 := upper;
      ResolveLast(lo, RootEntry(lo, upper), dir, name);
      NothingMeets(lo, upper, dir, name);
      var lowerPositive := LowerPositive(dir, name);
      assert lowerPositive || Dentry(dir + [name]).upper.Some?;
      var list := {};
      if isDir && (lowerPositive || !PureUpper(Dentry(dir + [name]))) {
        err, list := CheckEmptyDir(Dentry(dir + [name]));
        if err != OK {
          return;
        }
      }
      CopyUp(dir);
      CopiedUpSameView(lo, u0, upper);
      assert EntryCopied(At(lo, u0, dir + [name]), At(lo, upper, dir + [name]));
      assert EntryCopied(At(lo, u0, dir), At(lo, upper, dir));
      ParentCopyLeavesChild(lo, u0, upper, dir, name);
      if list != {} {
        ClearEmpty(dir, name);
      }
      ghost var u := upper;
      err := RemoveReal(dir, name, isDir, lowerPositive);
      forall q ensures err == OK ==> View(lo, upper, q) == RemovedObs(lo, u0, dir + [name], q) {
        assert View(lo, u, q) == View(lo, u0, q);
      }
    }

    /** ovl_remove_upper, or ovl_remove_and_whiteout where the lower layers would show through. */
    method RemoveReal(dir: Path, name: string, isDir: bool, lowerPositive: bool) returns (err: Errno)
      requires Valid() && Dentry(dir).UpperDir() && lowerPositive == LowerShows(Dentry(dir), name)
      requires var e := Dentry(dir + [name]); !lowerPositive && isDir ==> e.UpperDir()
      modifies this`upper
      ensures Valid()
      ensures old(Clean(lo, upper)) ==> Clean(lo, upper)
      ensures err == if !lowerPositive && isDir && Occupied(old(Dentry(dir + [name])).upper) then ENOTEMPTY else OK
      ensures err == OK ==> forall q :: View(lo, upper, q) == RemovedObs(lo, old(upper), dir + [name], q)
      ensures err != OK ==> upper == old(upper)
    {
      UpperDirHasDir(lo, RootEntry(lo, upper), dir);
      if !lowerPositive {
        if isDir && Dentry(dir + [name]).upper.value.kids != map[] {
          return ENOTEMPTY;
        }
        NothingMeets(lo, upper, dir, name);
        PutNothing(lo, upper, dir, name, None);
        MadeClean(lo, upper, dir, name, None);
        upper := Put(upper, dir, name, None);
      } else {
        PutNothing(lo, upper, dir, name, Some(Whiteout));
        MadeClean(lo, upper, dir, name, Some(Whiteout));
        upper := Put(upper, dir, name, Some(Whiteout));
      }
      err := OK;
    }

    // ---------- rename ----------

    /** ovl_can_move */
    predicate CanMove(e: Entry) {
      redirectDir || !e.IsDir() || !MergeOrLower(e)
    }

    /** Does the absolute redirect that a cross-directory move needs fit the limit? */
    ghost predicate PathFits(u: Node, path: Path, sameDir: bool)
      requires LayersOk(lo) && u.Dir?
    {
      NeedsPath(At(lo, u, path), sameDir) ==> |Join(LowerPath(lo, u, path))| <= redirectMax
    }

    /** The outcome of ovl_rename, told from the state before the call. */
    ghost function RenameError(u: Node, od: Path, on: string, nd: Path, nn: string, exchange: bool): Errno
      requires LayersOk(lo) && u.Dir?
    {
      var o, n := At(lo, u, od + [on]), At(lo, u, nd + [nn]);
      if !CanMove(o) || (exchange && !CanMove(n)) then EXDEV
      else if !exchange && n.IsDir() && !PureUpper(n) && !MergedEmpty(n) then ENOTEMPTY
      else if !PathFits(u, od + [on], od == nd) || (exchange && !PathFits(u, nd + [nn], od == nd)) then EXDEV
      else if !exchange && PureUpper(n) && Occupied(n.upper) then ENOTEMPTY
      else OK
    }

    /** A directory that cannot be moved: the lower layers hold part of it, and either no redirect may be written at all, or
        it changes its parent, is not known by an absolute path yet, and the path it comes from is too long. */
    ghost predicate StaysPut(u: Node, path: Path, sameDir: bool)
      requires LayersOk(lo) && u.Dir?
    {
      var e := At(lo, u, path);
      && e.IsDir() && e.lower != []
      && (!redirectDir || (!sameDir && !KnownByPath(e) && |Join(LowerPath(lo, u, path))| > redirectMax))
    }

    lemma StaysPutIff(u: Node, dir: Path, name: string, sameDir: bool)
      requires LayersOk(lo) && u.Dir? && (redirectDir ==> lo.follow)
      ensures StaysPut(u, dir + [name], sameDir) <==>
        !CanMove(At(lo, u, dir + [name])) || (redirectDir && !PathFits(u, dir + [name], sameDir))
    {
      ResolveLast(lo, RootEntry(lo, u), dir, name);
      ResolveOk(lo, RootEntry(lo, u), dir);
      if redirectDir && At(lo, u, dir + [name]).Entry? {
        KnownIff(lo, At(lo, u, dir), name);
      }
    }

    /** What the error of ovl_rename means. An exchange fails iff one of the two stays put; an overwriting rename fails iff
        the source stays put or something shows below the target. */
    lemma RenameErrorMeans(u: Node, od: Path, on: string, nd: Path, nn: string, exchange: bool)
      requires LayersOk(lo) && u.Dir? && (redirectDir ==> lo.follow)
      requires var o, n := At(lo, u, od + [on]), At(lo, u, nd + [nn]); o.Entry? && n.Entry? && NoStray(n)
      ensures var err := RenameError(u, od, on, nd, nn, exchange);
        var stays, below := StaysPut(u, od + [on], od == nd), ShowsBelow(lo, u, nd + [nn]);
        if exchange then err == if stays || StaysPut(u, nd + [nn], od == nd) then EXDEV else OK
        else
          && (err == OK <==> !stays && !below)
          && (err == EXDEV ==> stays) && (err == ENOTEMPTY ==> below)
          && (stays && !redirectDir ==> err == EXDEV)
          && err in {OK, EXDEV, ENOTEMPTY}
    {
      StaysPutIff(u, od, on, od == nd);
      StaysPutIff(u, nd, nn, od == nd);
      EmptyMeans(lo, u, nd + [nn]);
    }

    /** ovl_set_redirect, or the opaque mark, on the dentry dir/name that is about to move into toDir. */
    method PrepareMove(dir: Path, name: string, toDir: Path, toName: string) returns (err: Errno, ghost m: Node)
      requires Valid() && Followed(lo, Dentry(dir + [name])) && ValidPath(dir + [name])
      requires Dentry(dir).UpperDir() && Dentry(toDir).UpperDir()
      requires Dentry(dir + [name]).Entry? && Dentry(dir + [name]).upper.Some?
      requires !(dir + [name] <= toDir)
      modifies this`upper
      ensures Valid() && SameView(lo, old(upper), upper)
      ensures old(Clean(lo, upper)) ==> Clean(lo, upper)
      ensures err == if PathFits(old(upper), dir + [name], dir == toDir) then OK else EXDEV
      ensures err != OK ==> upper == old(upper)
      ensures HasDir(old(upper), dir)
      ensures err == OK ==> upper == Put(old(upper), dir, name, Some(m)) && Marked(lo, old(upper), upper, dir, name, m)
      ensures err == OK ==> Dentry(toDir).UpperDir() && Dentry(toDir).lower == old(Dentry(toDir)).lower
      ensures err == OK ==> SameContent(Dentry(dir + [name]), Meet(lo, Dentry(toDir).lower, toName, Some(m)))
    {
      var e := Dentry(dir + [name]);
      var sameDir, toMerge := dir == toDir, Dentry(toDir).lower != [];
      PartsRenderLowerPath(lo, upper, dir + [name]);
      MarkInPlace(lo, upper, dir, name, toDir, toName);
      var node := e.upper.value;
      m := node;
      if node.Dir? && e.lower != [] {
        if NeedsPath(e, sameDir) {
          var text := GetRedirect(Parts(lo, upper, dir + [name]), redirectMax);
          if text.None? {
            return EXDEV, m;
          }
          node := node.(redirect := text);
        } else if ActiveRedirect(e).None? {
          node := node.(redirect := Some(name));
        }
      } else if node.Dir? && !e.isOpaque && toMerge {
        node := node.(isOpaque := true);
      }
      m := node;
      assert m == Mark(e, name, LowerPath(lo, upper, dir + [name]), sameDir, toMerge);
      upper := Put(upper, dir, name, Some(node));
      err := OK;
    }

    lemma PathFitsElsewhere(u: Node, od: Path, on: string, m: Node, nd: Path, nn: string)
      requires LayersOk(lo) && u.Dir? && HasDir(u, od) && Unrelated(od, on, nd, nn)
      ensures PathFits(Put(u, od, on, Some(m)), nd + [nn], od == nd) == PathFits(u, nd + [nn], od == nd)
    {
      UnrelatedPaths(od, on, nd, nn, []);
      PathElsewhere(lo, u, od, on, m, nd + [nn]);
      PutElsewhere(lo, u, od, on, Some(m), nd + [nn]);
    }

    /** vfs_rename on the upper layer; whiteout leaves one at the old name. */
    method RealRename(od: Path, on: string, nd: Path, nn: string, exchange: bool, whiteout: bool) returns (err: Errno)
      requires Valid() && Dentry(od).UpperDir() && Dentry(nd).UpperDir() && !(od + [on] <= nd)
      requires UpperAt(Dentry(od), on).Some? && (exchange ==> UpperAt(Dentry(nd), nn).Some?)
      modifies this`upper
      ensures Valid() && HasDir(old(upper), od)
      ensures var m, t := old(UpperAt(Dentry(od), on)).value, old(UpperAt(Dentry(nd), nn));
        err == if exchange || t.None? then OK
               else if m.Dir? then (if !t.value.Dir? then ENOTDIR else if t.value.kids != map[] then ENOTEMPTY else OK)
               else if t.value.Dir? then EISDIR else OK
      ensures err != OK ==> upper == old(upper)
      ensures var m, t := old(UpperAt(Dentry(od), on)), old(UpperAt(Dentry(nd), nn));
        var left := if exchange then t else if whiteout then Some(Whiteout) else None;
        HasDir(Put(old(upper), od, on, left), nd) && (err == OK ==> upper == Put(Put(old(upper), od, on, left), nd, nn, m))
    {
      var m, t := UpperAt(Dentry(od), on), UpperAt(Dentry(nd), nn);
      UpperDirHasDir(lo, RootEntry(lo, upper), od);
      var left := if exchange then t else if whiteout then Some(Whiteout) else None;
      OtherParent(lo, upper, od, on, left, nd);
      if !exchange && t.Some? {
        if m.value.Dir? {
          if !t.value.Dir? {
            return ENOTDIR;
          } else if t.value.kids != map[] {
            return ENOTEMPTY;
          }
        } else if t.value.Dir? {
          return EISDIR;
        }
      }
      upper := Put(Put(upper, od, on, left), nd, nn, m);
      err := OK;
    }

    /** The second half of ovl_rename with RENAME_EXCHANGE: both marks, then the atomic upper rename. */
    method FinishExchange(od: Path, on: string, nd: Path, nn: string) returns (err: Errno)
      requires Valid() && Followed(lo, Dentry(od + [on])) && Followed(lo, Dentry(nd + [nn]))
      requires ValidPath(od + [on]) && ValidPath(nd + [nn]) && Unrelated(od, on, nd, nn)
      requires Dentry(od).UpperDir() && Dentry(nd).UpperDir()
      requires Dentry(od + [on]).Entry? && Dentry(od + [on]).upper.Some?
      requires Dentry(nd + [nn]).Entry? && Dentry(nd + [nn]).upper.Some?
      modifies this`upper
      ensures Valid()
      ensures old(Clean(lo, upper)) ==> Clean(lo, upper)
      ensures err == if PathFits(old(upper), od + [on], od == nd) && PathFits(old(upper), nd + [nn], od == nd) then OK else EXDEV
      ensures err != OK ==> SameView(lo, old(upper), upper)
      ensures err == OK ==> forall q :: View(lo, upper, q) == ExchangedObs(lo, old(upper), od + [on], nd + [nn], q)
    {
      ghost var u0 := upper;
      ghost var mo, mn;
      UnrelatedPaths(od, on, nd, nn, []);
      err, mo := PrepareMove(od, on, nd, nn);
      if err != OK {
        return;
      }
      ghost var u1 := upper;
      PutElsewhere(lo, u0, od, on, Some(mo), nd + [nn]);
      PathFitsElsewhere(u0, od, on, mo, nd, nn);
      err, mn := PrepareMove(nd, nn, od, on);
      if err != OK {
        return;
      }
      ghost var u2 := upper;
      PutElsewhere(lo, u1, nd, nn, Some(mn), od + [on]);
      UpperOfChild(lo, u2, od, on);
      UpperOfChild(lo, u2, nd, nn);
      ExchangeClean(lo, u2, od, on, nd, nn, mo, mn);
      err := RealRename(od, on, nd, nn, true, false);
      forall q ensures View(lo, upper, q) == ExchangedObs(lo, u0, od + [on], nd + [nn], q) {
        ExchangeView(lo, u2, od, on, nd, nn, mo, mn, q);
        SameViewExchanged(lo, u0, u1, u2, od + [on], nd + [nn], q);
      }
    }

    /** The second half of an overwriting ovl_rename: the mark, the atomic upper rename, and the whiteout left
        over from switching a whiteout with a directory. */
    method FinishOverwrite(od: Path, on: string, nd: Path, nn: string, switch: bool, whiteout: bool, cleanup: bool)
      returns (err: Errno)
      requires Valid() && Followed(lo, Dentry(od + [on])) && ValidPath(od + [on]) && Unrelated(od, on, nd, nn)
      requires Dentry(od).UpperDir() && Dentry(nd).UpperDir()
      requires Dentry(od + [on]).Entry? && Dentry(od + [on]).upper.Some?
      requires LeavesNothing(Dentry(od), on, switch, whiteout, cleanup)
      requires SameKind(Dentry(od + [on]), UpperAt(Dentry(nd), nn), switch)
      modifies this`upper
      ensures Valid()
      ensures old(Clean(lo, upper)) ==> Clean(lo, upper)
      ensures err == if !PathFits(old(upper), od + [on], od == nd) then EXDEV
                     else if !switch && Occupied(old(UpperAt(Dentry(nd), nn))) then ENOTEMPTY
                     else OK
      ensures err != OK ==> SameView(lo, old(upper), upper)
      ensures err == OK ==> forall q :: View(lo, upper, q) == RenamedObs(lo, old(upper), od + [on], nd + [nn], q)
    {
      ghost var u0 := upper;
      ghost var mo;
      UnrelatedPaths(od, on, nd, nn, []);
      err, mo := PrepareMove(od, on, nd, nn);
      if err != OK {
        return;
      }
      ghost var u1 := upper;
      UpperAtElsewhere(lo, u0, od, on, Some(mo), nd, nn);
      MarkKeepsKind(lo, u0, u1, od, on, mo);
      err := MoveMarked(od, on, nd, nn, switch, whiteout, cleanup, mo);
      forall q ensures err == OK ==> View(lo, upper, q) == RenamedObs(lo, u0, od + [on], nd + [nn], q) {
        SameViewRenamed(lo, u0, u1, od + [on], nd + [nn], q);
      }
    }

    /** The rename itself, once the node is marked. */
    method MoveMarked(od: Path, on: string, nd: Path, nn: string, switch: bool, whiteout: bool, cleanup: bool, ghost m: Node)
      returns (err: Errno)
      requires Valid() && Unrelated(od, on, nd, nn)
      requires Dentry(od).UpperDir() && Dentry(nd).UpperDir()
      requires Dentry(od + [on]).Entry? && Dentry(od + [on]).upper == Some(m)
      requires SameContent(Dentry(od + [on]), Meet(lo, Dentry(nd).lower, nn, Some(m)))
      requires LeavesNothing(Dentry(od), on, switch, whiteout, cleanup)
      requires SameKind(Dentry(od + [on]), UpperAt(Dentry(nd), nn), switch)
      modifies this`upper
      ensures Valid()
      ensures old(Clean(lo, upper)) ==> Clean(lo, upper)
      ensures err == if !switch && Occupied(old(UpperAt(Dentry(nd), nn))) then ENOTEMPTY else OK
      ensures err != OK ==> upper == old(upper)
      ensures err == OK ==> forall q :: View(lo, upper, q) == RenamedObs(lo, old(upper), od + [on], nd + [nn], q)
    {
      ghost var u := upper;
      UnrelatedPaths(od, on, nd, nn, []);
      UpperOfChild(lo, u, od, on);
      err := RealRename(od, on, nd, nn, switch, whiteout);
      if err != OK {
        return;
      }
      ghost var left := if switch || whiteout then Some(Whiteout) else None;
      ghost var u1 := upper;
      OtherParent(lo, u, od, on, left, nd);
      NothingMeets(lo, u, od, on);
      MoveClean(lo, u, od, on, nd, nn, left, m, if cleanup then {od + [on]} else {});
      forall q ensures View(lo, u1, q) == RenamedObs(lo, u, od + [on], nd + [nn], q) {
        MoveView(lo, u, od, on, nd, nn, left, m, q);
      }
      if cleanup {
        NotBelowParent(od, on);
        OtherParent(lo, u, od, on, left, od);
        OtherParent(lo, Put(u, od, on, left), nd, nn, Some(m), od);
        CleanupWhiteout(od, on);
        forall q ensures View(lo, upper, q) == RenamedObs(lo, u, od + [on], nd + [nn], q) {
          UnrelatedPaths(od, on, nd, nn, q);
        }
      }
    }

    /** ovl_cleanup of the whiteout that a switch has left at a name that shows nothing. */
    method CleanupWhiteout(dir: Path, name: string)
      requires Valid() && Dentry(dir).UpperDir() && !LowerShows(Dentry(dir), name)
      modifies this`upper
      ensures Valid()
      ensures old(CleanBut(lo, upper, {dir + [name]})) ==> Clean(lo, upper)
      ensures forall q {:trigger View(lo, upper, q)} :: View(lo, upper, q) == RemovedObs(lo, old(upper), dir + [name], q)
    {
      UpperDirHasDir(lo, RootEntry(lo, upper), dir);
      NothingMeets(lo, upper, dir, name);
      PutNothing(lo, upper, dir, name, None);
      if CleanBut(lo, upper, {dir + [name]}) {
        LeafOrEmpty(lo, Dentry(dir).lower, name, None);
        PutClean(lo, upper, dir, name, None, {dir + [name]}, {});
      }
      upper := Put(upper, dir, name, None);
    }

    /** Copying up old's dentry, its new parent and, for an exchange, new's dentry. */
    method CopyUpBoth(od: Path, on: string, nd: Path, nn: string, exchange: bool)
      requires Valid() && Dentry(od + [on]).Entry? && !Dentry(od + [on]).IsNegative()
      requires Dentry(nd).IsDir() && Dentry(nd + [nn]).Entry? && Unrelated(od, on, nd, nn)
      requires exchange ==> !Dentry(nd + [nn]).IsNegative()
      modifies this`upper
      ensures Valid() && CopiedUp(lo, old(upper), upper)
      ensures old(Clean(lo, upper)) ==> Clean(lo, upper)
      ensures Dentry(od).UpperDir() && Dentry(nd).UpperDir()
      ensures Dentry(od + [on]).Entry? && Dentry(od + [on]).upper.Some?
      ensures if exchange then Dentry(nd + [nn]).Entry? && Dentry(nd + [nn]).upper.Some?
              else Dentry(nd + [nn]) == old(Dentry(nd + [nn]))
    {
      ghost var u0 := upper;
      UnrelatedPaths(od, on, nd, nn, []);
      NotBelowParent(nd, nn);
      CopyUp(od + [on]);
      ghost var u1 := upper;
      assert EntryCopied(At(lo, u0, nd), At(lo, u1, nd));
      CopyUp(nd);
      CopiedUpTransitive(lo, u0, u1, upper);
      ghost var u2 := upper;
      if exchange {
        assert EntryCopied(At(lo, u0, nd + [nn]), At(lo, u2, nd + [nn]));
        CopyUp(nd + [nn]);
        CopiedUpTransitive(lo, u0, u2, upper);
        UpperOfChild(lo, upper, nd, nn);
      } else {
        assert EntryCopied(At(lo, u0, nd), At(lo, u2, nd));
      }
      UpperOfChild(lo, upper, od, on);
    }

    lemma PathFitsCopied(u: Node, u': Node, path: Path, sameDir: bool)
      requires LayersOk(lo) && u.Dir? && u'.Dir? && CopiedUp(lo, u, u')
      ensures PathFits(u', path, sameDir) == PathFits(u, path, sameDir)
    {
      LowerPathKept(lo, u, u', path);
      assert EntryCopied(At(lo, u, path), At(lo, u', path));
    }

    /** The flag choice of an overwriting ovl_rename. */
    method ChooseFlags(od: Path, on: string, newE: Entry) returns (switch: bool, whiteout: bool, cleanup: bool)
      requires Valid() && Dentry(od).IsDir() && Dentry(od + [on]).Entry? && !Dentry(od + [on]).IsNegative()
      ensures LeavesNothing(Dentry(od), on, switch, whiteout, cleanup)
      ensures switch ==> IsWhiteout(newE)
      ensures IsWhiteout(newE) && Dentry(od + [on]).IsDir() ==> switch
    {
      switch, whiteout, cleanup := false, false, false;
      var lowerPositive := LowerPositive(od, on);
      if lowerPositive {
        if !IsWhiteout(newE) {
          whiteout := true;
        } else {
          switch := true;
        }
      } else if Dentry(od + [on]).IsDir() && IsWhiteout(newE) {
        switch := true;
        cleanup := true;
      }
    }

    /** What an overwriting rename does once everything is copied up. */
    method RenameOver(od: Path, on: string, nd: Path, nn: string, list: set<string>, switch: bool, whiteout: bool, cleanup: bool)
      returns (err: Errno)
      requires Valid() && Followed(lo, Dentry(od + [on])) && ValidPath(od + [on]) && Unrelated(od, on, nd, nn)
      requires Dentry(od).UpperDir() && Dentry(nd).UpperDir()
      requires Dentry(od + [on]).Entry? && Dentry(od + [on]).upper.Some? && Dentry(nd + [nn]).Entry?
      requires LeavesNothing(Dentry(od), on, switch, whiteout, cleanup)
      requires var o, n := Dentry(od + [on]), Dentry(nd + [nn]);
        && (switch ==> IsWhiteout(n)) && (IsWhiteout(n) && o.IsDir() ==> switch)
        && (!n.IsNegative() ==> (o.IsDir() <==> n.IsDir()))
        && (list != {} ==> n.UpperDir() && MergedEmpty(n))
        && (n.IsDir() && !PureUpper(n) ==> n.UpperDir() ==> list == n.upper.value.kids.Keys)
        && (PureUpper(n) ==> list == {})
      modifies this`upper
      ensures Valid()
      ensures old(Clean(lo, upper)) ==> Clean(lo, upper)
      ensures err == if !PathFits(old(upper), od + [on], od == nd) then EXDEV
                     else if PureUpper(old(Dentry(nd + [nn]))) && Occupied(old(Dentry(nd + [nn])).upper) then ENOTEMPTY
                     else OK
      ensures err != OK ==> SameView(lo, old(upper), upper)
      ensures err == OK ==> forall q :: View(lo, upper, q) == RenamedObs(lo, old(upper), od + [on], nd + [nn], q)
    {
      ghost var u1 := upper;
      TargetKind(lo, upper, nd, nn);
      DentryOk(lo, upper, od + [on]);
      if list != {} {
        ClearEmpty(nd, nn);
        UnrelatedPaths(od, on, nd, nn, []);
        PutElsewhere(lo, u1, nd, nn, Some(Dir(true, None, false, map[])), od + [on]);
        OtherParent(lo, u1, nd, nn, Some(Dir(true, None, false, map[])), od);
        PathFitsElsewhere(u1, nd, nn, Dir(true, None, false, map[]), od, on);
        TargetKind(lo, upper, nd, nn);
      }
      ghost var u2 := upper;
      err := FinishOverwrite(od, on, nd, nn, switch, whiteout, cleanup);
      forall q ensures err == OK ==> View(lo, upper, q) == RenamedObs(lo, u1, od + [on], nd + [nn], q) {
        SameViewRenamed(lo, u1, u2, od + [on], nd + [nn], q);
      }
    }

    /** ovl_rename. Error-free but for the cases of RenameError, it acts on the merged view as rename, or
        RENAME_EXCHANGE, does on a plain tree. */
    method Rename(od: Path, on: string, nd: Path, nn: string, exchange: bool) returns (err: Errno)
      requires Valid() && ValidPath(od + [on]) && ValidPath(nd + [nn]) && Unrelated(od, on, nd, nn)
      requires Dentry(od).IsDir() && Dentry(nd).IsDir()
      requires Dentry(od + [on]).Entry? && !Dentry(od + [on]).IsNegative() && Dentry(nd + [nn]).Entry?
      requires exchange ==> !Dentry(nd + [nn]).IsNegative()
      requires !exchange && !Dentry(nd + [nn]).IsNegative() ==> (Dentry(od + [on]).IsDir() <==> Dentry(nd + [nn]).IsDir())
      modifies this`upper
      ensures Valid()
      ensures old(Clean(lo, upper)) ==> Clean(lo, upper)
      ensures err == RenameError(old(upper), od, on, nd, nn, exchange)
      ensures err != OK ==> SameView(lo, old(upper), upper)
      ensures err == OK && exchange ==>
        forall q :: View(lo, upper, q) == ExchangedObs(lo, old(upper), od + [on], nd + [nn], q)
      ensures err == OK && !exchange ==>
        forall q :: View(lo, upper, q) == RenamedObs(lo, old(upper), od + [on], nd + [nn], q)
    {
      if !CanMove(Dentry(od + [on])) {
        return EXDEV;
      }
      if exchange && !CanMove(Dentry(nd + [nn])) {
        return EXDEV;
      }
      if exchange {
        err := RenameExchange(od, on, nd, nn);
      } else {
        err := RenameOverwrite(od, on, nd, nn);
      }
    }

    method RenameExchange(od: Path, on: string, nd: Path, nn: string) returns (err: Errno)
      requires Valid() && Followed(lo, Dentry(od + [on])) && Followed(lo, Dentry(nd + [nn]))
      requires ValidPath(od + [on]) && ValidPath(nd + [nn]) && Unrelated(od, on, nd, nn)
      requires Dentry(nd).IsDir() && Dentry(od + [on]).Entry? && !Dentry(od + [on]).IsNegative()
      requires Dentry(nd + [nn]).Entry? && !Dentry(nd + [nn]).IsNegative()
      modifies this`upper
      ensures Valid()
      ensures old(Clean(lo, upper)) ==> Clean(lo, upper)
      ensures err == if PathFits(old(upper), od + [on], od == nd) && PathFits(old(upper), nd + [nn], od == nd) then OK else EXDEV
      ensures err != OK ==> SameView(lo, old(upper), upper)
      ensures err == OK ==> forall q :: View(lo, upper, q) == ExchangedObs(lo, old(upper), od + [on], nd + [nn], q)
    {
      ghost var u0 := upper;
      CopyUpBoth(od, on, nd, nn, true);
      CopiedUpSameView(lo, u0, upper);
      PathFitsCopied(u0, upper, od + [on], od == nd);
      PathFitsCopied(u0, upper, nd + [nn], od == nd);
      ghost var u1 := upper;
      StillMovable(lo, u0, u1, od, on);
      StillMovable(lo, u0, u1, nd, nn);
      err := FinishExchange(od, on, nd, nn);
      forall q ensures err == OK ==> View(lo, upper, q) == ExchangedObs(lo, u0, od + [on], nd + [nn], q) {
        SameViewExchanged(lo, u0, u1, u1, od + [on], nd + [nn], q);
      }
    }

    method RenameOverwrite(od: Path, on: string, nd: Path, nn: string) returns (err: Errno)
      requires Valid() && Followed(lo, Dentry(od + [on])) && ValidPath(od + [on]) && Unrelated(od, on, nd, nn)
      requires Dentry(od).IsDir() && Dentry(nd).IsDir()
      requires Dentry(od + [on]).Entry? && !Dentry(od + [on]).IsNegative() && Dentry(nd + [nn]).Entry?
      requires !Dentry(nd + [nn]).IsNegative() ==> (Dentry(od + [on]).IsDir() <==> Dentry(nd + [nn]).IsDir())
      modifies this`upper
      ensures Valid()
      ensures old(Clean(lo, upper)) ==> Clean(lo, upper)
      ensures var n := old(Dentry(nd + [nn]));
        err == if n.IsDir() && !PureUpper(n) && !MergedEmpty(n) then ENOTEMPTY
               else if !PathFits(old(upper), od + [on], od == nd) then EXDEV
               else if PureUpper(n) && Occupied(n.upper) then ENOTEMPTY
               else OK
      ensures err != OK ==> SameView(lo, old(upper), upper)
      ensures err == OK ==> forall q :: View(lo, upper, q) == RenamedObs(lo, old(upper), od + [on], nd + [nn], q)
    {
      ghost var u0 := upper;
      var newE, list := Dentry(nd + [nn]), {};
      if newE.IsDir() && !PureUpper(newE) {
        err, list := CheckEmptyDir(newE);
        if err != OK {
          return;
        }
      }
      var switch, whiteout, cleanup := ChooseFlags(od, on, newE);
      CopyUpBoth(od, on, nd, nn, false);
      ghost var u1 := upper;
      CopiedUpSameView(lo, u0, u1);
      PathFitsCopied(u0, u1, od + [on], od == nd);
      StillMovable(lo, u0, u1, od, on);
      err := RenameOver(od, on, nd, nn, list, switch, whiteout, cleanup);
      forall q ensures err == OK ==> View(lo, upper, q) == RenamedObs(lo, u0, od + [on], nd + [nn], q) {
        SameViewRenamed(lo, u0, u1, od + [on], nd + [nn], q);
      }
    }
  }

  lemma PathElsewhere(lo: Lowers, u: Node, od: Path, on: string, m: Node, path: Path)
    requires LayersOk(lo) && u.Dir? && HasDir(u, od) && !(od + [on] <= path)
    ensures LowerPath(lo, Put(u, od, on, Some(m)), path) == LowerPath(lo, u, path)
  {
    var u' := Put(u, od, on, Some(m));
    forall i | 0 <= i <= |path| ensures EntryCopied(At(lo, u, path[..i]), At(lo, u', path[..i])) {
      PrefixNotBelow(od + [on], path, i);
      PutElsewhere(lo, u, od, on, Some(m), path[..i]);
    }
    LowerPathKept(lo, u, u', path);
  }

  lemma PrefixNotBelow(a: Path, path: Path, i: nat)
    requires !(a <= path) && i <= |path|
    ensures !(a <= path[..i])
  {
  }

  /** Copy-up leaves a dentry as movable as it was, and its name as visible without it. */
  lemma StillMovable(lo: Lowers, u: Node, u': Node, dir: Path, name: string)
    requires LayersOk(lo) && u.Dir? && u'.Dir? && CopiedUp(lo, u, u')
    ensures Followed(lo, At(lo, u, dir + [name])) ==> Followed(lo, At(lo, u', dir + [name]))
    ensures At(lo, u', dir + [name]).IsDir() <==> At(lo, u, dir + [name]).IsDir()
    ensures At(lo, u, dir).IsDir() ==> (LowerShows(At(lo, u', dir), name) <==> LowerShows(At(lo, u, dir), name))
  {
    assert EntryCopied(At(lo, u, dir), At(lo, u', dir));
    assert EntryCopied(At(lo, u, dir + [name]), At(lo, u', dir + [name]));
  }

  /** What is physically at the target name, told from its dentry. */
  lemma TargetKind(lo: Lowers, u: Node, nd: Path, nn: string)
    requires LayersOk(lo) && u.Dir? && At(lo, u, nd).IsDir()
    requires At(lo, u, nd + [nn]).Entry?
    ensures var n, t := At(lo, u, nd + [nn]), UpperAt(At(lo, u, nd), nn);
      && (IsWhiteout(n) <==> t == Some(Whiteout))
      && (n.IsNegative() && !n.isOpaque ==> t.None?)
      && (!n.IsNegative() ==> t == n.upper && (t.Some? ==> (t.value.Dir? <==> n.IsDir())))
  {
    ResolveLast(lo, RootEntry(lo, u), nd, nn);
  }

  lemma SameViewRenamed(lo: Lowers, u0: Node, u1: Node, old_: Path, new_: Path, q: Path)
    requires LayersOk(lo) && u0.Dir? && u1.Dir? && SameView(lo, u0, u1)
    ensures RenamedObs(lo, u1, old_, new_, q) == RenamedObs(lo, u0, old_, new_, q)
  {
  }

  lemma SameViewExchanged(lo: Lowers, u0: Node, u1: Node, u2: Node, old_: Path, new_: Path, q: Path)
    requires LayersOk(lo) && u0.Dir? && u1.Dir? && u2.Dir? && SameView(lo, u0, u1) && SameView(lo, u1, u2)
    ensures ExchangedObs(lo, u2, old_, new_, q) == ExchangedObs(lo, u0, old_, new_, q)
  {
  }

  lemma MarkKeepsKind(lo: Lowers, u: Node, u': Node, dir: Path, name: string, m: Node)
    requires LayersOk(lo) && u.Dir? && u'.Dir? && Marked(lo, u, u', dir, name, m)
    requires At(lo, u, dir + [name]).Entry? && At(lo, u, dir + [name]).upper.Some?
    ensures m.Dir? <==> At(lo, u, dir + [name]).upper.value.Dir?
  {
  }

  /** Nothing shows at the old name once it holds what the rename leaves there. */
  predicate LeavesNothing(parent: Entry, name: string, switch: bool, whiteout: bool, cleanup: bool) {
    && (cleanup ==> switch)
    && !(switch && whiteout)
    && ((whiteout || switch) && !cleanup <==> LowerShows(parent, name))
  }

  predicate SameKind(e: Entry, target: Option<Node>, switch: bool)
    requires e.Entry? && e.upper.Some?
  {
    if switch then target == Some(Whiteout)
    else target.Some? ==> (e.upper.value.Dir? <==> target.value.Dir?)
  }

  predicate Occupied(target: Option<Node>) {
    target.Some? && target.value.Dir? && target.value.kids != map[]
  }

  lemma UpperOfChild(lo: Lowers, u: Node, dir: Path, name: string)
    requires LayersOk(lo) && u.Dir? && At(lo, u, dir + [name]).Entry? && At(lo, u, dir + [name]).upper.Some?
    ensures At(lo, u, dir).UpperDir() && UpperAt(At(lo, u, dir), name) == At(lo, u, dir + [name]).upper
  {
    ResolveLast(lo, RootEntry(lo, u), dir, name);
  }

  lemma UpperAtElsewhere(lo: Lowers, u: Node, od: Path, on: string, v: Option<Node>, nd: Path, nn: string)
    requires LayersOk(lo) && u.Dir? && HasDir(u, od) && Unrelated(od, on, nd, nn) && At(lo, u, nd).Entry?
    ensures UpperAt(At(lo, Put(u, od, on, v), nd), nn) == UpperAt(At(lo, u, nd), nn)
  {
    if nd <= od {
      var rest := od[|nd|..];
      assert od == nd + rest;
      FirstStepsDiffer(nd, rest, on, nn);
      UpperAtAbove(lo, u, nd, rest, on, v, nn);
    } else {
      PutElsewhere(lo, u, od, on, v, nd);
    }
  }

  lemma UpperAtAbove(lo: Lowers, u: Node, nd: Path, rest: Path, on: string, v: Option<Node>, nn: string)
    requires LayersOk(lo) && u.Dir? && HasDir(u, nd + rest) && At(lo, u, nd).Entry? && nn != (rest + [on])[0]
    ensures UpperAt(At(lo, Put(u, nd + rest, on, v), nd), nn) == UpperAt(At(lo, u, nd), nn)
  {
    assert (nd + rest)[|nd|..] == rest;
    ResolvePut(lo, RootEntry(lo, u), nd + rest, on, v, nd);
    PutOtherKid(At(lo, u, nd).upper.value, rest, on, v, nn);
  }

  lemma FirstStepsDiffer(nd: Path, rest: Path, on: string, nn: string)
    requires Unrelated(nd + rest, on, nd, nn)
    ensures nn != (rest + [on])[0]
  {
    if rest != [] {
      assert nd + rest == (nd + [rest[0]]) + rest[1..];
    }
  }

  lemma PutOtherKid(root: Node, dir: Path, name: string, v: Option<Node>, n: string)
    requires HasDir(root, dir) && n != (dir + [name])[0]
    ensures var r := Put(root, dir, name, v);
      (n in r.kids <==> n in root.kids) && (n in root.kids ==> r.kids[n] == root.kids[n])
  {
  }

  /** Storing the mark changes no view and prepares the node for its new directory. */
  lemma MarkInPlace(lo: Lowers, u: Node, dir: Path, name: string, toDir: Path, toName: string)
    requires LayersOk(lo) && u.Dir? && ValidPath(dir + [name]) && Followed(lo, At(lo, u, dir + [name]))
    requires At(lo, u, dir).UpperDir() && At(lo, u, toDir).UpperDir() && !(dir + [name] <= toDir)
    requires At(lo, u, dir + [name]).Entry? && At(lo, u, dir + [name]).upper.Some?
    ensures HasDir(u, dir)
    ensures var m := Mark(At(lo, u, dir + [name]), name, LowerPath(lo, u, dir + [name]), dir == toDir, At(lo, u, toDir).lower != []);
      var u' := Put(u, dir, name, Some(m));
      && SameView(lo, u, u') && Marked(lo, u, u', dir, name, m) && (Clean(lo, u) ==> Clean(lo, u'))
      && At(lo, u', toDir).UpperDir() && At(lo, u', toDir).lower == At(lo, u, toDir).lower
      && SameContent(At(lo, u', dir + [name]), Meet(lo, At(lo, u, toDir).lower, toName, Some(m)))
  {
    var path, to := dir + [name], At(lo, u, toDir).lower;
    var e := At(lo, u, path);
    var m := Mark(e, name, LowerPath(lo, u, path), dir == toDir, to != []);
    UpperDirHasDir(lo, RootEntry(lo, u), dir);
    NotBelowParent(dir, name);
    DentryOk(lo, u, path);
    DentryOk(lo, u, dir);
    DentryOk(lo, u, toDir);
    MarkedNode(lo, u, dir, name, to, toName, dir == toDir, to != []);
    MarkedNode(lo, u, dir, name, At(lo, u, dir).lower, name, dir == toDir, to != []);
    PutSame(lo, u, dir, name, Some(m));
    MarkClean(lo, u, dir, name, m);
    MarkSettles(lo, u, dir, name, m);
    SameContentTransitive(e, At(lo, Put(u, dir, name, Some(m)), path), Meet(lo, to, toName, Some(m)));
    OtherParent(lo, u, dir, name, Some(m), toDir);
  }

  lemma MarkSettles(lo: Lowers, u: Node, dir: Path, name: string, m: Node)
    requires LayersOk(lo) && u.Dir? && HasDir(u, dir) && At(lo, u, dir).UpperDir()
    requires At(lo, u, dir + [name]).Entry? && !m.Whiteout?
    requires SameContent(At(lo, u, dir + [name]), Meet(lo, At(lo, u, dir).lower, name, Some(m)))
    ensures Marked(lo, u, Put(u, dir, name, Some(m)), dir, name, m)
  {
    NotBelowParent(dir, name);
    OtherParent(lo, u, dir, name, Some(m), dir);
    PutAt(lo, u, dir, name, Some(m));
    MeetUpper(lo, At(lo, u, dir).lower, name, m);
    SameContentEntry(At(lo, u, dir + [name]), Meet(lo, At(lo, u, dir).lower, name, Some(m)));
  }

  lemma PutAt(lo: Lowers, u: Node, dir: Path, name: string, v: Option<Node>)
    requires LayersOk(lo) && u.Dir? && HasDir(u, dir) && At(lo, u, dir).UpperDir()
    ensures At(lo, Put(u, dir, name, v), dir + [name]) == Meet(lo, At(lo, u, dir).lower, name, v)
  {
    PutView(lo, u, dir, name, v, dir + [name]);
    assert (dir + [name])[|dir| + 1..] == [];
  }

  lemma MeetUpper(lo: Lowers, lower: seq<LPath>, name: string, m: Node)
    ensures var e := Meet(lo, lower, name, Some(m)); e.Entry? && !m.Whiteout? ==> e.upper == Some(m)
  {
  }

  lemma SameContentEntry(a: Entry, b: Entry)
    requires SameContent(a, b) && a.Entry?
    ensures b.Entry?
  {
  }

  /** u' differs from u by the node m at dir/name, whose dentry keeps its content. */
  ghost predicate Marked(lo: Lowers, u: Node, u': Node, dir: Path, name: string, m: Node)
    requires LayersOk(lo) && u.Dir? && u'.Dir?
  {
    && At(lo, u', dir).UpperDir() && At(lo, u, dir).Entry? && At(lo, u', dir).lower == At(lo, u, dir).lower
    && SameContent(At(lo, u, dir + [name]), At(lo, u', dir + [name]))
    && At(lo, u', dir + [name]).Entry? && At(lo, u', dir + [name]).upper == Some(m)
  }

  /** Copying the parent up leaves the child's dentry as it was. */
  lemma ParentCopyLeavesChild(lo: Lowers, u0: Node, u: Node, dir: Path, name: string)
    requires LayersOk(lo) && u0.Dir? && u.Dir?
    requires var p0, p := At(lo, u0, dir), At(lo, u, dir);
      && EntryCopied(p0, p) && p0.IsDir()
      && (p0.upper.Some? ==> u == u0)
      && (p0.upper.None? ==> p.upper == CopyOf(p0))
    ensures At(lo, u, dir + [name]) == At(lo, u0, dir + [name])
  {
    ResolveLast(lo, RootEntry(lo, u0), dir, name);
    ResolveLast(lo, RootEntry(lo, u), dir, name);
  }

  /** The upper rename leaves no stray whiteout but the one that is cleaned up after it. */
  lemma MoveClean(lo: Lowers, u: Node, od: Path, on: string, nd: Path, nn: string, x: Option<Node>, m: Node, holes: set<Path>)
    requires LayersOk(lo) && u.Dir? && Unrelated(od, on, nd, nn)
    requires At(lo, u, od).UpperDir() && At(lo, u, nd).UpperDir()
    requires x.None? || (x.value.Whiteout? && (At(lo, u, od).lower != [] || od + [on] in holes))
    requires At(lo, u, od + [on]).Entry? && At(lo, u, od + [on]).upper == Some(m)
    requires SameContent(At(lo, u, od + [on]), Meet(lo, At(lo, u, nd).lower, nn, Some(m)))
    ensures HasDir(u, od) && HasDir(Put(u, od, on, x), nd)
    ensures Clean(lo, u) ==> CleanBut(lo, Put(Put(u, od, on, x), nd, nn, Some(m)), holes)
  {
    UpperDirHasDir(lo, RootEntry(lo, u), od);
    OtherParent(lo, u, od, on, x, nd);
    if Clean(lo, u) {
      LeafOrEmpty(lo, At(lo, u, od).lower, on, x);
      PutClean(lo, u, od, on, x, {}, holes);
      DentryArrives(lo, u, od + [on], Put(u, od, on, x), nd, nn, m, holes);
    }
  }

  lemma ExchangeClean(lo: Lowers, u: Node, od: Path, on: string, nd: Path, nn: string, mo: Node, mn: Node)
    requires LayersOk(lo) && u.Dir? && Unrelated(od, on, nd, nn)
    requires At(lo, u, od).UpperDir() && At(lo, u, nd).UpperDir()
    requires At(lo, u, od + [on]).Entry? && At(lo, u, od + [on]).upper == Some(mo)
    requires At(lo, u, nd + [nn]).Entry? && At(lo, u, nd + [nn]).upper == Some(mn)
    requires SameContent(At(lo, u, od + [on]), Meet(lo, At(lo, u, nd).lower, nn, Some(mo)))
    requires SameContent(At(lo, u, nd + [nn]), Meet(lo, At(lo, u, od).lower, on, Some(mn)))
    ensures HasDir(u, od) && HasDir(Put(u, od, on, Some(mn)), nd)
    ensures Clean(lo, u) ==> Clean(lo, Put(Put(u, od, on, Some(mn)), nd, nn, Some(mo)))
  {
    UpperDirHasDir(lo, RootEntry(lo, u), od);
    OtherParent(lo, u, od, on, Some(mn), nd);
    if Clean(lo, u) {
      DentryArrives(lo, u, nd + [nn], u, od, on, mn, {});
      DentryArrives(lo, u, od + [on], Put(u, od, on, Some(mn)), nd, nn, mo, {});
    }
  }

  lemma NotBelowParent(dir: Path, name: string)
    ensures !(dir + [name] <= dir)
  {
  }

  lemma FreshMeets(lo: Lowers, p: Entry, name: string, made: Node)
    requires LayersOk(lo) && EntryOk(p, |lo.roots|) && p.IsDir() && Child(lo, p, name).IsNegative()
    requires made.File? || (made.Dir? && made.redirect.None? && made.kids == map[])
    requires IsWhiteout(Child(lo, p, name)) && made.Dir? ==> made.isOpaque
    ensures var e := Meet(lo, p.lower, name, Some(made));
      && e.Entry? && e.upper == Some(made)
      && (made.Dir? ==> e.lower == [] && forall c :: Child(lo, e, c).IsNegative())
  {
    if made.Dir? {
      IncreasingFits(p.lower, 1, |lo.roots|);
      if !made.isOpaque {
        MeetFresh(lo, p.lower, name, made);
      }
      forall c ensures Child(lo, Meet(lo, p.lower, name, Some(made)), c).IsNegative() {
        MeetNone(lo, [], c);
      }
    }
  }

  lemma CreatedView(lo: Lowers, u0: Node, u: Node, dir: Path, name: string, made: Node, q: Path)
    requires LayersOk(lo) && u0.Dir? && u.Dir? && SameView(lo, u0, u) && At(lo, u, dir).UpperDir() && HasDir(u, dir)
    requires var e := Meet(lo, At(lo, u, dir).lower, name, Some(made));
      && !made.Whiteout? && e.Entry? && e.upper == Some(made)
      && (made.Dir? ==> e.lower == [] && forall c :: Child(lo, e, c).IsNegative())
    ensures View(lo, Put(u, dir, name, Some(made)), q) == CreatedObs(lo, u0, dir + [name], NodeObs(made), q)
  {
    PutView(lo, u, dir, name, Some(made), q);
    assert View(lo, u, q) == View(lo, u0, q);
    if dir + [name] <= q {
      var t := q[|dir| + 1..];
      assert q == dir + [name] + t;
      if t != [] {
        BelowFresh(lo, Meet(lo, At(lo, u, dir).lower, name, Some(made)), t);
      }
    }
  }

  lemma BelowFresh(lo: Lowers, e: Entry, path: Path)
    requires path != [] && e.Entry? && e.upper.Some?
    requires e.IsDir() ==> forall c :: Child(lo, e, c).IsNegative()
    ensures Resolve(lo, e, path).IsNegative()
  {
    NegativeBelow(lo, Child(lo, e, path[0]), path[1..]);
  }

  lemma EmptyDirsLookAlike(lo: Lowers, a: Entry, b: Entry, path: Path)
    requires LayersOk(lo) && EntryOk(a, |lo.roots|) && EntryOk(b, |lo.roots|)
    requires a.Entry? && a.IsDir() && MergedEmpty(a) && b.Entry? && b.IsDir() && MergedEmpty(b)
    ensures Observe(Resolve(lo, a, path)) == Observe(Resolve(lo, b, path))
  {
    if path != [] {
      MergedEmptyShowsNothing(lo, a, path[0]);
      MergedEmptyShowsNothing(lo, b, path[0]);
      NegativeBelow(lo, Child(lo, a, path[0]), path[1..]);
      NegativeBelow(lo, Child(lo, b, path[0]), path[1..]);
    }
  }
}
