/** Whole runs of namespace operations: whatever the layers, the merged view is what the same operations make of a plain
    tree, and the overlay refuses nothing that a plain tree allows, but for moving directories. */
module OverlayRuns {
  import opened Paths
  import opened Layers
  import opened LayerPaths
  import opened MergedView
  import opened UpperSteps
  import opened Moves
  import opened Whiteouts
  import opened OverlayDir

  type Tree = Path -> Obs

  function TreeOf(lo: Lowers, u: Node): Tree
    requires LayersOk(lo) && u.Dir?
  {
    q => View(lo, u, q)
  }

  datatype Op =
    | Make(dir: Path, name: string, node: Node)
    | Unlink(dir: Path, name: string)
    | Move(od: Path, on: string, nd: Path, nn: string, exchange: bool)

  predicate IsObject(o: Obs) {
    o.IsFile? || o.IsDirectory?
  }

  /** What the caller has checked before: the names are there, or are not, and the kinds fit. */
  predicate Fits(t: Tree, op: Op) {
    match op
    case Make(dir, name, node) =>
      t(dir) == IsDirectory && t(dir + [name]) == Absent && (node.File? || node == Dir(false, None, false, map[]))
    case Unlink(dir, name) => t(dir) == IsDirectory && IsObject(t(dir + [name]))
    case Move(od, on, nd, nn, exchange) =>
      && ValidPath(od + [on]) && ValidPath(nd + [nn]) && Unrelated(od, on, nd, nn)
      && t(od) == IsDirectory && t(nd) == IsDirectory && IsObject(t(od + [on]))
      && if t(nd + [nn]) == Absent then !exchange
         else IsObject(t(nd + [nn])) && (exchange || (t(od + [on]) == IsDirectory <==> t(nd + [nn]) == IsDirectory))
  }

  ghost predicate IsEmpty(t: Tree, path: Path) {
    forall name :: t(path + [name]) == Absent
  }

  /** A plain tree does not remove a directory, or rename over one, that is not empty. */
  ghost predicate Refuses(t: Tree, op: Op) {
    match op
    case Make(_, _, _) => false
    case Unlink(dir, name) => !IsEmpty(t, dir + [name])
    case Move(od, on, nd, nn, exchange) => !exchange && !IsEmpty(t, nd + [nn])
  }

  /** The operation on a plain tree. */
  function After(t: Tree, op: Op): Tree {
    match op
    case Make(dir, name, node) => q => if q == dir + [name] then NodeObs(node) else if dir + [name] <= q then Absent else t(q)
    case Unlink(dir, name) => q => if dir + [name] <= q then Absent else t(q)
    case Move(od, on, nd, nn, exchange) => Moved(t, od + [on], nd + [nn], exchange)
  }

  /** The subtree at old is at new; what was there is at old, or gone. */
  function Moved(t: Tree, old_: Path, new_: Path, exchange: bool): Tree {
    q =>
      if new_ <= q then t(old_ + q[|new_|..])
      else if !(old_ <= q) then t(q)
      else if exchange then t(new_ + q[|old_|..])
      else Absent
  }

  /** Does it move a directory? */
  predicate MovesDir(t: Tree, op: Op) {
    op.Move? && (t(op.od + [op.on]) == IsDirectory || (op.exchange && t(op.nd + [op.nn]) == IsDirectory))
  }

  function PlainRun(t: Tree, ops: seq<Op>, done: seq<bool>): Tree
    requires |ops| == |done|
  {
    if ops == [] then t
    else
      var k := |ops| - 1;
      var before := PlainRun(t, ops[..k], done[..k]);
      if done[k] then After(before, ops[k]) else before
  }

  /** An operation is done if the plain tree allows it, unless it is the move of a directory; and only then. */
  ghost predicate AnswerOk(t: Tree, op: Op, done: bool) {
    && (done ==> Fits(t, op) && !Refuses(t, op))
    && (Fits(t, op) && !Refuses(t, op) && !done ==> MovesDir(t, op))
  }

  ghost predicate AnswersOk(t: Tree, ops: seq<Op>, done: seq<bool>)
    requires |ops| == |done|
  {
    ops != [] ==>
      var k := |ops| - 1;
      AnswersOk(t, ops[..k], done[..k]) && AnswerOk(PlainRun(t, ops[..k], done[..k]), ops[k], done[k])
  }

  lemma ObsMeans(lo: Lowers, u: Node, path: Path)
    requires LayersOk(lo) && u.Dir?
    ensures var e := At(lo, u, path);
      && (View(lo, u, path) == IsDirectory <==> e.IsDir())
      && (View(lo, u, path) == Absent <==> e.IsNegative())
      && (View(lo, u, path) == Broken <==> e.Bad?)
  {
    DentryOk(lo, u, path);
  }

  ghost predicate SameTree(t: Tree, t': Tree) {
    forall q :: t(q) == t'(q)
  }

  /** What the tree shows decides, not how it is held. */
  lemma SameTreeDecides(t: Tree, t': Tree, op: Op)
    requires SameTree(t, t')
    ensures (Fits(t, op) <==> Fits(t', op)) && (Refuses(t, op) <==> Refuses(t', op)) && (MovesDir(t, op) <==> MovesDir(t', op))
    ensures SameTree(After(t, op), After(t', op))
  {
  }

  method DoMake(o: Overlay, dir: Path, name: string, node: Node)
    requires o.Valid() && Clean(o.lo, o.upper) && Fits(TreeOf(o.lo, o.upper), Make(dir, name, node))
    modifies o
    ensures o.Valid() && Clean(o.lo, o.upper)
    ensures SameTree(TreeOf(o.lo, o.upper), After(TreeOf(o.lo, old(o.upper)), Make(dir, name, node)))
  {
    ObsMeans(o.lo, o.upper, dir);
    ObsMeans(o.lo, o.upper, dir + [name]);
    o.Create(dir, name, node);
  }

  method DoUnlink(o: Overlay, dir: Path, name: string) returns (done: bool)
    requires o.Valid() && Clean(o.lo, o.upper) && Fits(TreeOf(o.lo, o.upper), Unlink(dir, name))
    modifies o
    ensures o.Valid() && Clean(o.lo, o.upper)
    ensures done <==> !Refuses(TreeOf(o.lo, old(o.upper)), Unlink(dir, name))
    ensures SameTree(TreeOf(o.lo, o.upper), if done then After(TreeOf(o.lo, old(o.upper)), Unlink(dir, name)) else TreeOf(o.lo, old(o.upper)))
  {
    ghost var u := o.upper;
    ObsMeans(o.lo, u, dir);
    ObsMeans(o.lo, u, dir + [name]);
    CleanAt(o.lo, u, dir + [name]);
    assert NoStray(Resolve(o.lo, o.Dentry(dir + [name]), []));
    RemovableMeans(o.lo, u, dir + [name], LowerShows(o.Dentry(dir), name));
    var err := o.Remove(dir, name, o.Dentry(dir + [name]).IsDir());
    done := err.OK?;
  }

  method DoMove(o: Overlay, od: Path, on: string, nd: Path, nn: string, exchange: bool) returns (done: bool)
    requires o.Valid() && Clean(o.lo, o.upper) && Fits(TreeOf(o.lo, o.upper), Move(od, on, nd, nn, exchange))
    modifies o
    ensures o.Valid() && Clean(o.lo, o.upper)
    ensures AnswerOk(TreeOf(o.lo, old(o.upper)), Move(od, on, nd, nn, exchange), done)
    ensures done <==>
      && !Refuses(TreeOf(o.lo, old(o.upper)), Move(od, on, nd, nn, exchange))
      && !o.StaysPut(old(o.upper), od + [on], od == nd) && (exchange ==> !o.StaysPut(old(o.upper), nd + [nn], od == nd))
    ensures SameTree(TreeOf(o.lo, o.upper),
                     if done then After(TreeOf(o.lo, old(o.upper)), Move(od, on, nd, nn, exchange)) else TreeOf(o.lo, old(o.upper)))
  {
    ghost var u := o.upper;
    ObsMeans(o.lo, u, od);
    ObsMeans(o.lo, u, nd);
    ObsMeans(o.lo, u, od + [on]);
    ObsMeans(o.lo, u, nd + [nn]);
    CleanAt(o.lo, u, nd + [nn]);
    assert NoStray(Resolve(o.lo, o.Dentry(nd + [nn]), []));
    o.RenameErrorMeans(u, od, on, nd, nn, exchange);
    var err := o.Rename(od, on, nd, nn, exchange);
    done := err.OK?;
  }

  method Do(o: Overlay, op: Op) returns (done: bool)
    requires o.Valid() && Clean(o.lo, o.upper)
    modifies o
    ensures o.Valid() && Clean(o.lo, o.upper)
    ensures AnswerOk(TreeOf(o.lo, old(o.upper)), op, done)
    ensures SameTree(TreeOf(o.lo, o.upper), if done then After(TreeOf(o.lo, old(o.upper)), op) else TreeOf(o.lo, old(o.upper)))
  {
    if !Fits(TreeOf(o.lo, o.upper), op) {
      return false;
    }
    match op {
      case Make(dir, name, node) =>
        DoMake(o, dir, name, node);
        done := true;
      case Unlink(dir, name) => done := DoUnlink(o, dir, name);
      case Move(od, on, nd, nn, exchange) => done := DoMove(o, od, on, nd, nn, exchange);
    }
  }

  lemma RunExtends(t: Tree, ops: seq<Op>, done: seq<bool>, d: bool)
    requires |done| < |ops|
    ensures var k := |done|;
      var before := PlainRun(t, ops[..k], done);
      && PlainRun(t, ops[..k + 1], done + [d]) == (if d then After(before, ops[k]) else before)
      && (AnswersOk(t, ops[..k], done) && AnswerOk(before, ops[k], d) ==> AnswersOk(t, ops[..k + 1], done + [d]))
  {
    var k := |done|;
    assert ops[..k + 1][..k] == ops[..k] && (done + [d])[..k] == done;
  }

  /** However the operations follow each other, the merged view stays what they make of a plain tree, each done as that
      tree allows it; only moves of directories may be refused beyond that. */
  method Run(o: Overlay, ops: seq<Op>) returns (done: seq<bool>)
    requires o.Valid() && Clean(o.lo, o.upper)
    modifies o
    ensures o.Valid() && Clean(o.lo, o.upper) && |done| == |ops|
    ensures SameTree(TreeOf(o.lo, o.upper), PlainRun(TreeOf(o.lo, old(o.upper)), ops, done))
    ensures AnswersOk(TreeOf(o.lo, old(o.upper)), ops, done)
  {
    ghost var t := TreeOf(o.lo, o.upper);
    done := [];
    for i := 0 to |ops|
      invariant |done| == i && o.Valid() && Clean(o.lo, o.upper)
      invariant SameTree(TreeOf(o.lo, o.upper), PlainRun(t, ops[..i], done))
      invariant AnswersOk(t, ops[..i], done)
    {
      ghost var was, plain := TreeOf(o.lo, o.upper), PlainRun(t, ops[..i], done);
      var d := Do(o, ops[i]);
      SameTreeDecides(was, plain, ops[i]);
      RunExtends(t, ops, done, d);
      done := done + [d];
    }
    assert ops[..|ops|] == ops;
  }
}
