/** Copy-up by any number of threads: what ovl_copy_up_flags and ovl_copy_up_one do step by step, while renames move
    copied-up dentries about. Metacopy and disconnected dentries are left out. */
module CopyUpProtocol {
  type Dentry = nat
  type Inode = nat
  type Thread = nat

  /** Where a thread is. d is what it was asked to copy up, next the dentry it is working on, parent the parent it saw. */
  datatype Pc =
    | Idle
    | Check(d: Dentry)                                     // ovl_already_copied_up, without the lock
    | Climb(d: Dentry, next: Dentry)                       // looking for the topmost dentry not copied up
    | Lock(d: Dentry, parent: Dentry, next: Dentry)        // ovl_copy_up_start
    | Recheck(d: Dentry, parent: Dentry, next: Dentry)     // ... with the lock taken
    | Copying(d: Dentry, parent: Dentry, next: Dentry)     // ovl_do_copy_up, until ovl_inode_update
    | Placing(d: Dentry, parent: Dentry, next: Dentry)     // ... until the upper alias is set
    | Linking(d: Dentry, parent: Dentry, next: Dentry)     // ovl_link_up
    | Ending(d: Dentry, next: Dentry, ok: bool)            // ovl_copy_up_end
    | Done(d: Dentry, ok: bool)

  predicate Locking(pc: Pc) {
    pc.Recheck? || pc.Copying? || pc.Placing? || pc.Linking? || pc.Ending?
  }

  /** What stays as it is: the dentries, their inodes, which inodes are directories (each with one dentry), and which
      are copied up to the index first. */
  datatype Tree = Tree(
    all: set<Dentry>,
    root: Dentry,
    inode: Dentry -> Inode,
    dirs: set<Inode>,
    dirOf: Inode -> Dentry,
    indexed: set<Inode>)
  {
    predicate IsDir(d: Dentry) {
      inode(d) in dirs
    }

    ghost predicate Ok() {
      root in all && IsDir(root) && forall d | d in all && IsDir(d) :: dirOf(inode(d)) == d
    }
  }

  /** upper holds the inodes with an upper dentry, alias the dentries with OVL_E_UPPER_ALIAS. The root is its own parent,
      and rank grows along each path from it. failed remembers the threads in whose call a real operation has failed. */
  datatype State = State(
    tree: Tree,
    parent: Dentry -> Dentry,
    rank: Dentry -> nat,
    upper: set<Inode>,
    alias: set<Dentry>,
    lock: map<Inode, Thread>,
    failed: set<Thread>,
    pc: map<Thread, Pc>)
  {
    ghost predicate ParentsOk() {
      && parent(tree.root) == tree.root
      && forall d {:trigger parent(d)} | d in tree.all ::
           parent(d) in tree.all && tree.IsDir(parent(d)) && (d != tree.root ==> rank(parent(d)) < rank(d))
    }

    /** ovl_dentry_upper */
    predicate HasUpper(d: Dentry) {
      tree.inode(d) in upper
    }

    /** ovl_already_copied_up */
    predicate Copied(d: Dentry) {
      HasUpper(d) && d in alias
    }

    /** The dentry has its place in the upper tree. A directory has only the one. */
    predicate Placed(d: Dentry) {
      d in alias || (tree.IsDir(d) && HasUpper(d))
    }

    function At(t: Thread, p: Pc): State {
      this.(pc := pc[t := p])
    }

    /** A real operation fails in t's call, which goes on at p. */
    function Fails(t: Thread, p: Pc): State {
      this.(failed := failed + {t}, pc := pc[t := p])
    }

    predicate Holds(t: Thread, d: Dentry) {
      tree.inode(d) in lock && lock[tree.inode(d)] == t
    }

    /** The parent that a thread saw has an upper directory, and is still the parent unless the dentry has been copied
        up meanwhile. */
    ghost predicate Seen(d: Dentry, p: Dentry, next: Dentry) {
      d in tree.all && next in tree.all && HasUpper(p) && (parent(next) == p || next in alias)
    }

    /** What holds of the dentries a thread remembers. */
    ghost predicate PcOk(t: Thread)
      requires t in pc
    {
      && (!pc[t].Idle? ==> (t in failed <==> (pc[t].Done? || pc[t].Ending?) && !pc[t].ok))
      && match pc[t]
      case Idle => true
      case Done(d, ok) => ok ==> Copied(d)
      case Check(d) => d in tree.all
      case Climb(d, next) => d in tree.all && next in tree.all
      case Lock(d, p, next) => Seen(d, p, next)
      case Recheck(d, p, next) => Seen(d, p, next) && Holds(t, next)
      case Copying(d, p, next) => Seen(d, p, next) && Holds(t, next) && !HasUpper(next) && next !in alias
      case Placing(d, p, next) => Seen(d, p, next) && Holds(t, next) && HasUpper(next) && next !in alias
      case Linking(d, p, next) => Seen(d, p, next) && Holds(t, next) && HasUpper(next) && next !in alias
      case Ending(d, next, ok) => d in tree.all && next in tree.all && Holds(t, next) && (ok ==> Copied(next))
    }

    /** A lock is held by the thread that works under it. */
    ghost predicate LocksOk() {
      forall i | i in lock :: lock[i] in pc && Locking(pc[lock[i]]) && tree.inode(pc[lock[i]].next) == i
    }

    ghost predicate AliasesOk() {
      HasUpper(tree.root) && tree.root in alias && forall d | d in alias :: d in tree.all && HasUpper(d)
    }

    /** What has its place in the upper tree has it below an upper directory. */
    ghost predicate PlacedBelowUpper() {
      forall d {:trigger parent(d)} | d in tree.all && Placed(d) :: HasUpper(parent(d))
    }

    ghost predicate ThreadsOk() {
      forall t | t in pc :: PcOk(t)
    }

    ghost predicate Inv() {
      tree.Ok() && ParentsOk() && LocksOk() && AliasesOk() && PlacedBelowUpper() && ThreadsOk()
    }
  }

  /** One step of thread t. */
  ghost predicate Step(s: State, s': State, t: Thread) {
    t in s.pc &&
    match s.pc[t]
    case Idle => exists d | d in s.tree.all :: s' == s.(failed := s.failed - {t}).At(t, Check(d))
    case Done(_, _) => s' == s.At(t, Idle)
    case Check(d) => s' == s.At(t, if s.Copied(d) then Done(d, true) else Climb(d, d))
    case Climb(d, next) => s' == s.At(t, if s.HasUpper(s.parent(next)) then Lock(d, s.parent(next), next) else Climb(d, s.parent(next)))
    case Lock(d, p, next) =>
      || s' == s.Fails(t, Done(d, false))
      || (s.tree.inode(next) !in s.lock && s' == s.(lock := s.lock[s.tree.inode(next) := t]).At(t, Recheck(d, p, next)))
    case Recheck(d, p, next) =>
      s' == s.At(t, if s.Copied(next) then Ending(d, next, true) else if s.HasUpper(next) then Linking(d, p, next) else Copying(d, p, next))
    case Copying(d, p, next) =>
      || s' == s.Fails(t, Ending(d, next, false))
      || s' == s.(upper := s.upper + {s.tree.inode(next)}).At(t, if s.tree.inode(next) in s.tree.indexed then Linking(d, p, next) else Placing(d, p, next))
    case Placing(d, p, next) => s' == s.(alias := s.alias + {next}).At(t, Ending(d, next, true))
    case Linking(d, p, next) =>
      || s' == s.Fails(t, Ending(d, next, false))
      || s' == s.(alias := s.alias + {next}).At(t, Ending(d, next, true))
      || s' == s.(alias := s.alias + {next}).Fails(t, Ending(d, next, false))
    case Ending(d, next, ok) =>
      s' == s.(lock := s.lock - {s.tree.inode(next)}).At(t, if ok then Check(d) else Done(d, false))
  }

  /** ovl_rename moves a dentry that it has copied up to a directory that it has copied up, not below itself. */
  ghost predicate Rename(s: State, s': State, d: Dentry, newParent: Dentry) {
    && d in s.tree.all && d != s.tree.root && s.Copied(d)
    && newParent in s.tree.all && s.tree.IsDir(newParent) && s.HasUpper(newParent)
    && s' == s.(parent := s'.parent, rank := s'.rank)
    && (forall x :: s'.parent(x) == if x == d then newParent else s.parent(x))
    && s'.ParentsOk()
  }

  ghost predicate Next(s: State, s': State) {
    (exists t :: Step(s, s', t)) || exists d, p :: Rename(s, s', d, p)
  }

  /** What a step of thread t can change: it gives upper dentries and aliases only under its own locks. */
  ghost predicate Effect(s: State, s': State, t: Thread) {
    && s'.tree == s.tree && s'.parent == s.parent && s'.rank == s.rank && s.upper <= s'.upper && s.alias <= s'.alias
    && (forall i | i in s'.upper && i !in s.upper :: i in s.lock && s.lock[i] == t)
    && (forall d | d in s'.alias && d !in s.alias :: s.Holds(t, d))
    && (forall i | i in s.lock && s.lock[i] != t :: i in s'.lock && s'.lock[i] == s.lock[i])
    && (forall u | u in s.pc && u != t :: u in s'.pc && s'.pc[u] == s.pc[u])
    && (forall u | u in s'.pc :: u in s.pc)
    && (forall u | u != t :: u in s'.failed <==> u in s.failed)
  }

  lemma StepEffect(s: State, s': State, t: Thread)
    requires s.Inv() && Step(s, s', t)
    ensures Effect(s, s', t)
  {
    assert s.PcOk(t);
  }

  /** ... so the facts that another thread relies on stay. */
  lemma OthersKept(s: State, s': State, t: Thread, u: Thread)
    requires s.Inv() && Effect(s, s', t) && u in s.pc && u != t
    ensures s'.PcOk(u)
  {
    assert s.PcOk(u);
  }

  lemma OwnKept(s: State, s': State, t: Thread)
    requires s.Inv() && Step(s, s', t)
    ensures t in s'.pc && s'.PcOk(t)
  {
    assert s.PcOk(t);
  }

  lemma StepLocks(s: State, s': State, t: Thread)
    requires s.Inv() && Step(s, s', t)
    ensures s'.LocksOk()
  {
    assert s.PcOk(t);
  }

  lemma StepTree(s: State, s': State, t: Thread)
    requires s.Inv() && Step(s, s', t)
    ensures s'.tree == s.tree && s'.parent == s.parent && s'.rank == s.rank
    ensures s.upper <= s'.upper && s.alias <= s'.alias
    ensures s'.AliasesOk() && s'.PlacedBelowUpper()
  {
    assert s.PcOk(t);
  }

  lemma StepKeepsInv(s: State, s': State, t: Thread)
    requires s.Inv() && Step(s, s', t)
    ensures s'.Inv()
  {
    StepTree(s, s', t);
    StepLocks(s, s', t);
    StepEffect(s, s', t);
    forall u | u in s'.pc ensures s'.PcOk(u) {
      if u == t {
        OwnKept(s, s', t);
      } else {
        OthersKept(s, s', t, u);
      }
    }
  }

  lemma RenameKeepsInv(s: State, s': State, d: Dentry, p: Dentry)
    requires s.Inv() && Rename(s, s', d, p)
    ensures s'.Inv()
  {
    forall u | u in s'.pc ensures s'.PcOk(u) {
      assert s.PcOk(u);
    }
  }

  // ---------- whole runs ----------

  ghost predicate Initial(s: State) {
    s.Inv() && s.lock == map[] && forall t | t in s.pc :: s.pc[t].Idle?
  }

  ghost predicate IsRun(run: seq<State>) {
    run != [] && Initial(run[0]) && forall i | 0 <= i < |run| - 1 :: NextAt(run, i)
  }

  ghost predicate NextAt(run: seq<State>, i: nat)
    requires i < |run| - 1
  {
    Next(run[i], run[i + 1])
  }

  lemma NextKeepsInv(s: State, s': State)
    requires s.Inv() && Next(s, s')
    ensures s'.Inv() && s.upper <= s'.upper && s.tree == s'.tree
  {
    if t :| Step(s, s', t) {
      StepTree(s, s', t);
      StepKeepsInv(s, s', t);
    } else {
      var d, p :| Rename(s, s', d, p);
      RenameKeepsInv(s, s', d, p);
    }
  }

  lemma {:induction false} RunKeepsInv(run: seq<State>, i: nat)
    requires IsRun(run) && i < |run|
    ensures run[i].Inv()
  {
    if i > 0 {
      RunKeepsInv(run, i - 1);
      assert NextAt(run, i - 1);
      NextKeepsInv(run[i - 1], run[i]);
    }
  }

  lemma {:induction false} UpperStays(run: seq<State>, i: nat, j: nat)
    requires IsRun(run) && i <= j < |run|
    ensures run[i].upper <= run[j].upper && run[i].tree == run[j].tree
  {
    if i < j {
      UpperStays(run, i, j - 1);
      RunKeepsInv(run, j - 1);
      assert NextAt(run, j - 1);
      NextKeepsInv(run[j - 1], run[j]);
    }
  }

  /** Thread t makes next's inode an upper one: ovl_inode_update. */
  ghost predicate Updates(s: State, s': State, t: Thread) {
    Step(s, s', t) && s.pc[t].Copying? && !s'.pc[t].Ending?
  }

  /** The warning in ovl_inode_update never fires: the inode has no upper dentry yet. */
  lemma UpdateIsFirst(s: State, s': State, t: Thread)
    requires s.Inv() && Updates(s, s', t)
    ensures !s.HasUpper(s.pc[t].next) && s'.HasUpper(s.pc[t].next)
  {
    assert s.PcOk(t);
  }

  /** In any run, an inode has no upper dentry before the step that updates it and has one ever after: every inode gets
      its upper dentry at most once. */
  lemma UpdatedOnce(run: seq<State>, j: nat, t: Thread, i: nat)
    requires IsRun(run) && i < |run| && j < |run| - 1 && Updates(run[j], run[j + 1], t)
    ensures run[j].tree.inode(run[j].pc[t].next) in run[i].upper <==> i > j
  {
    RunKeepsInv(run, j);
    UpdateIsFirst(run[j], run[j + 1], t);
    if i <= j {
      UpperStays(run, i, j);
    } else {
      UpperStays(run, j, j + 1);
      UpperStays(run, j + 1, i);
    }
  }

  /** What a call's result means, in any run: it succeeds exactly if no real operation has failed in it, and then the dentry
      is copied up. */
  lemma DoneMeans(run: seq<State>, i: nat, t: Thread)
    requires IsRun(run) && i < |run| && t in run[i].pc && run[i].pc[t].Done?
    ensures run[i].pc[t].ok <==> t !in run[i].failed
    ensures run[i].pc[t].ok ==> run[i].Copied(run[i].pc[t].d)
  {
    RunKeepsInv(run, i);
    assert run[i].PcOk(t);
  }

  /** Real operations fail while the lock is waited for, in the copying, or in the linking: never in a call that only finds
      out that another has copied the dentry up. */
  lemma FailsWhereItWorks(s: State, s': State, t: Thread, u: Thread)
    requires s.Inv() && Step(s, s', t) && u in s'.failed && u !in s.failed
    ensures u == t && (s.pc[t].Lock? || s.pc[t].Copying? || s.pc[t].Linking?)
    ensures s.pc[t].Lock? ==> s'.lock == s.lock
    ensures s.pc[t].Copying? ==> !s.HasUpper(s.pc[t].next)
    ensures s.pc[t].Linking? ==> !s.Copied(s.pc[t].next)
  {
    assert s.PcOk(t);
  }

  /** k levels up. */
  function Ancestor(s: State, d: Dentry, k: nat): Dentry
    decreases k
  {
    if k == 0 then d else Ancestor(s, s.parent(d), k - 1)
  }

  /** All ancestors of a copied-up dentry are copied up. */
  lemma {:induction false} AncestorsCopied(s: State, d: Dentry, k: nat)
    requires s.Inv() && d in s.tree.all && s.Placed(d)
    ensures s.HasUpper(Ancestor(s, d, k))
    decreases k
  {
    if k > 0 {
      AncestorsCopied(s, s.parent(d), k - 1);
    } else if d in s.alias {
      assert s.HasUpper(d);
    }
  }

  /** ... in every state of every run. */
  lemma RunAncestorsCopied(run: seq<State>, i: nat, d: Dentry, k: nat)
    requires IsRun(run) && i < |run| && d in run[i].tree.all && run[i].Copied(d)
    ensures run[i].HasUpper(Ancestor(run[i], d, k))
  {
    RunKeepsInv(run, i);
    AncestorsCopied(run[i], d, k);
  }

  // ---------- one thread on a quiet tree ----------

  /** Only thread t runs, and every lock is free. The state is changed by steps of t only. */
  class QuietTree {
    var s: State

    constructor (s: State)
      ensures this.s == s
    {
      this.s := s;
    }

    method Take(t: Thread, ghost s0: State, s1: State)
      requires s == s0 && s0.Inv() && Step(s0, s1, t)
      modifies this
      ensures s == s1 && s1.Inv()
    {
      StepKeepsInv(s0, s1, t);
      s := s1;
    }

    /** Dentries without an upper alias. */
    ghost function Missing(): set<Dentry>
      reads this
    {
      s.tree.all - s.alias
    }

    /** ovl_copy_up_flags. Without failures on the way it ends with the dentry, and so all its ancestors, copied up. */
    method CopyUpFlags(t: Thread, d: Dentry, mayFail: bool) returns (ok: bool)
      requires s.Inv() && d in s.tree.all && s.lock == map[] && t in s.pc && s.pc[t].Idle?
      modifies this
      ensures s.Inv() && s.lock == map[] && s.parent == old(s).parent && s.tree == old(s).tree
      ensures t in s.pc && s.pc[t] == Done(d, ok)
      ensures (ok <==> t !in s.failed) && (!mayFail ==> ok)
      ensures ok ==> s.Copied(d) && forall k: nat :: s.HasUpper(Ancestor(s, d, k))
    {
      ghost var s0 := s;
      Take(t, s0, s.(failed := s.failed - {t}).At(t, Check(d)));
      while true
        invariant s.Inv() && d in s.tree.all && s.lock == map[] && t in s.pc && s.pc[t] == Check(d)
        invariant s.parent == old(s).parent && s.tree == old(s).tree
        decreases Missing()
      {
        if s.Copied(d) {
          Take(t, s, s.At(t, Done(d, true)));
          forall k: nat {
            AncestorsCopied(s, d, k);
          }
          return true;
        }
        Take(t, s, s.At(t, Climb(d, d)));
        var parent, next := FindTopmost(t, d);
        ok := CopyUpOne(t, d, parent, next, mayFail);
        if !ok {
          return;
        }
      }
    }

    /** The climb to the topmost dentry not yet copied up. */
    method FindTopmost(t: Thread, d: Dentry) returns (parent: Dentry, next: Dentry)
      requires s.Inv() && d in s.tree.all && d !in s.alias && t in s.pc && s.pc[t] == Climb(d, d)
      modifies this
      ensures s.Inv() && t in s.pc && s.pc[t] == Lock(d, parent, next) && s == old(s).At(t, s.pc[t])
      ensures next in s.tree.all && next !in s.alias
    {
      next := d;
      while true
        invariant s.Inv() && t in s.pc && s.pc[t] == Climb(d, next) && s == old(s).At(t, s.pc[t])
        invariant next in s.tree.all && next !in s.alias
        decreases s.rank(next)
      {
        parent := s.parent(next);
        if s.HasUpper(parent) {
          Take(t, s, s.At(t, Lock(d, parent, next)));
          return;
        }
        Take(t, s, s.At(t, Climb(d, parent)));
        next := parent;
      }
    }

    /** ovl_copy_up_one */
    method CopyUpOne(t: Thread, d: Dentry, parent: Dentry, next: Dentry, mayFail: bool) returns (ok: bool)
      requires s.Inv() && s.lock == map[] && next in s.tree.all && next !in s.alias
      requires t in s.pc && s.pc[t] == Lock(d, parent, next)
      modifies this
      ensures s.Inv() && s.lock == map[] && s.parent == old(s).parent && s.tree == old(s).tree
      ensures t in s.pc && s.pc[t] == if ok then Check(d) else Done(d, false)
      ensures old(s).alias <= s.alias <= old(s).alias + {next} && (ok ==> next in s.alias) && (!mayFail ==> ok)
    {
      var fails: bool := *;
      if mayFail && fails {
        Take(t, s, s.Fails(t, Done(d, false)));
        return false;
      }
      Take(t, s, s.(lock := s.lock[s.tree.inode(next) := t]).At(t, Recheck(d, parent, next)));
      ok := CopyUpLocked(t, d, parent, next, mayFail);
      Take(t, s, s.(lock := s.lock - {s.tree.inode(next)}).At(t, if ok then Check(d) else Done(d, false)));
    }

    /** The part of ovl_copy_up_one that holds the lock. */
    method CopyUpLocked(t: Thread, d: Dentry, parent: Dentry, next: Dentry, mayFail: bool) returns (ok: bool)
      requires s.Inv() && next in s.tree.all && next !in s.alias
      requires t in s.pc && s.pc[t] == Recheck(d, parent, next)
      modifies this
      ensures s.Inv() && s.lock == old(s).lock && s.parent == old(s).parent && s.tree == old(s).tree
      ensures t in s.pc && s.pc[t] == Ending(d, next, ok)
      ensures old(s).alias <= s.alias <= old(s).alias + {next} && (ok ==> next in s.alias) && (!mayFail ==> ok)
    {
      var fails: bool := *;
      if s.HasUpper(next) {
        Take(t, s, s.At(t, Linking(d, parent, next)));
      } else {
        Take(t, s, s.At(t, Copying(d, parent, next)));
        if mayFail && fails {
          Take(t, s, s.Fails(t, Ending(d, next, false)));
          return false;
        }
        if s.tree.inode(next) !in s.tree.indexed {
          Take(t, s, s.(upper := s.upper + {s.tree.inode(next)}).At(t, Placing(d, parent, next)));
          Take(t, s, s.(alias := s.alias + {next}).At(t, Ending(d, next, true)));
          return true;
        }
        Take(t, s, s.(upper := s.upper + {s.tree.inode(next)}).At(t, Linking(d, parent, next)));
      }
      fails := *;
      if mayFail && fails {
        Take(t, s, s.Fails(t, Ending(d, next, false)));
        ok := false;
      } else {
        ok := *;
        ok := ok || !mayFail;
        if ok {
          Take(t, s, s.(alias := s.alias + {next}).At(t, Ending(d, next, true)));
        } else {
          Take(t, s, s.(alias := s.alias + {next}).Fails(t, Ending(d, next, false)));
        }
      }
    }
  }
}
