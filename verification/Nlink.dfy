/** The union link count of an indexed file: names linked to the upper inode plus lower names not covered yet.
    Every change that reaches the disk is one Reach, and what is on disk after each of them is logged, so a crash
    can leave any logged state. Which real operations fail in a call is given by its set of faults. */
module Nlink {
  import opened Paths
  import opened NlinkFormat

  const MAX_LINKS: nat := 0x7fff_ffff

  /** ovl_get_nlink, with both dentries present. */
  function GetNlink(lowerNlink: nat, upperNlink: nat, xattr: Option<string>, fallback: nat): nat {
    if lowerNlink == 1 || xattr.None? || ParseNlink(xattr.value).None? then fallback
    else
      var stored := ParseNlink(xattr.value).value;
      var nlink := AsInt(AsInt(if stored.base.Lower? then lowerNlink else upperNlink) + stored.diff);
      if nlink <= 0 then fallback else nlink
  }

  datatype Index = NoIndex | Present | Removed | WhitedOut

  /** What matters of a file on disk. Links to the upper inode are its index entry, its names in the upper layer, and
      links left in the work directory. Of the lowerNlink lower names, uncovered are not covered by the upper layer. */
  datatype Disk = Disk(lowerNlink: nat, xattr: Option<string>, index: Index, aliases: nat, work: nat, uncovered: nat) {
    function UpperNlink(): nat {
      (if index.Present? then 1 else 0) + aliases + work
    }

    /** The links once the file has its index entry. */
    function IndexedNlink(): nat {
      UpperNlink() + if index.NoIndex? then 1 else 0
    }

    function Union(): nat {
      aliases + uncovered
    }

    /** The next mount empties the work directory before it looks at the index. */
    function Mounted(): Disk {
      this.(work := 0)
    }

    /** The xattr, read back. */
    function Stored(): Option<Stored> {
      if xattr.Some? then ParseNlink(xattr.value) else None
    }

    function Recount(fallback: nat): nat {
      GetNlink(lowerNlink, UpperNlink(), xattr, fallback)
    }

    /** The orphan test of ovl_verify_index, for a file. */
    predicate Orphan() {
      index.Present? && UpperNlink() == 1 && Recount(0) == 0
    }
  }

  /** A state of the disk, with the state and the inode's count at the moment at which its xattr was stored. */
  datatype Logged = Logged(disk: Disk, store: Disk, nlink: nat)

  ghost predicate Bounded(d: Disk) {
    1 <= d.lowerNlink <= MAX_LINKS && d.uncovered <= d.lowerNlink && d.UpperNlink() <= MAX_LINKS && d.Union() <= MAX_LINKS
  }

  /** What the inode counted when it stored the xattr: the names, or, while its last name is being removed, what is
      left in the work directory. */
  ghost predicate StoreOk(store: Disk, nlink: nat) {
    && Bounded(store) && store.index.Present?
    && if store.Union() > 0 then nlink == store.Union() else nlink == 0 || nlink == store.work
  }

  ghost predicate Accurate(s: Logged) {
    var d := s.disk;
    && Bounded(d)
    && (d.aliases > 0 ==> d.index.Present?)
    && (d.index.NoIndex? ==> d.work == 0)
    && (d.xattr.None? ==> d.aliases == 0)
    && (d.xattr.Some? ==> d.index.Present? && StoreOk(s.store, s.nlink) && StoredThen(d, d.Stored(), s.store, s.nlink))
  }

  /** The xattr holds the difference between the count and the links of one inode at that moment. After a store relative
      to the upper inode only links to that inode have come and gone; after one relative to the lower inode, at most a
      name has been copied up. */
  ghost predicate StoredThen(d: Disk, v: Option<Stored>, store: Disk, nlink: nat) {
    && v.Some? && d.lowerNlink == store.lowerNlink
    && (store.Union() == 0 ==> d.Union() == 0)
    && match v.value.base
       case Lower => v.value.diff == nlink - store.lowerNlink && d.Union() == store.Union() > 0
       case Upper => v.value.diff == nlink - store.UpperNlink() && d.uncovered == store.uncovered
  }

  /** The xattr is relative to the upper inode, and links in the work directory were counted into it. */
  predicate CountedWork(s: Logged) {
    s.disk.Stored().Some? && s.disk.Stored().value.base.Upper? && s.store.work > 0
  }

  /** From the first stored xattr on, the mount after a crash recomputes the union count, as long as it is positive,
      exactly if the lower file has several links and no link was in the work directory when the xattr was stored
      relative to the upper inode. */
  lemma RecountIff(s: Logged)
    requires Accurate(s) && s.disk.xattr.Some? && s.disk.Union() > 0
    ensures s.disk.Mounted().Recount(0) == s.disk.Union() <==> s.disk.lowerNlink != 1 && !CountedWork(s)
  {
  }

  /** If there were some, the count is too low by their number. */
  lemma RecountShort(s: Logged)
    requires Accurate(s) && s.disk.Union() > 0 && s.disk.lowerNlink != 1 && CountedWork(s)
    ensures s.disk.Mounted().Recount(0) == if s.disk.Union() > s.store.work then s.disk.Union() - s.store.work else 0
  {
  }

  lemma RecountAny(s: Logged, fallback: nat)
    requires Accurate(s) && s.disk.xattr.Some? && s.disk.Union() > 0 && s.disk.lowerNlink != 1 && !CountedWork(s)
    ensures s.disk.Mounted().Recount(fallback) == s.disk.Union()
  {
  }

  /** Mount-time verification calls an index orphan iff no name is left, or no upper name is and the count is not to be
      had: a lower file with one link, no xattr yet, or at least as many counted work links as names. With no name left
      the index has exactly one link. */
  lemma OrphanIff(s: Logged)
    requires Accurate(s) && s.disk.index.Present?
    ensures s.disk.Union() == 0 ==> s.disk.Mounted().UpperNlink() == 1
    ensures s.disk.Mounted().Orphan() <==>
      || s.disk.Union() == 0
      || (s.disk.aliases == 0
          && (s.disk.lowerNlink == 1 || s.disk.xattr.None? || (CountedWork(s) && s.store.work >= s.disk.Union())))
  {
  }

  /** The overlay inode's count after a crash in any state of a run and a remount. */
  lemma CrashAnywhere(f: IndexedFile, i: nat, fallback: nat)
    requires f.Valid() && i < |f.log| && f.log[i].disk.lowerNlink != 1
    requires f.log[i].disk.xattr.Some? && !CountedWork(f.log[i])
    ensures var d := f.log[i].disk.Mounted();
      && (d.Union() > 0 ==> d.Recount(fallback) == d.Union() && !d.Orphan())
      && (d.Union() == 0 ==> d.UpperNlink() == 1 && d.Orphan())
  {
    OrphanIff(f.log[i]);
    if f.log[i].disk.Union() > 0 {
      RecountAny(f.log[i], fallback);
    }
  }

  /** The real operations that can fail. */
  datatype Fault =
    | IndexCreate | IndexStore | LowerStore | LinkUpper | LinkedStore // copy-up
    | InodeLock | StartStore                                          // ovl_nlink_start
    | MakeLink | RenameLink | WorkCleanup | RemoveName                // link and unlink
    | CleanupStore | IndexRemove                                      // ovl_cleanup_index

  /** A lower name can be copied up: nothing that this takes fails, and there is room for the links. */
  ghost predicate CanCopyUp(d: Disk, faults: set<Fault>) {
    && (d.index.NoIndex? ==> faults !! {IndexCreate, IndexStore})
    && faults !! {LowerStore, LinkUpper, LinkedStore} && d.IndexedNlink() < MAX_LINKS
  }

  class IndexedFile {
    const indexAll: bool
    var disk: Disk
    var nlink: nat
    ghost var store: Disk
    ghost var counted: nat
    ghost var log: seq<Logged>

    ghost predicate Valid()
      reads this
    {
      && Accurate(Logged(disk, store, counted))
      && (disk.lowerNlink > 1 || indexAll)
      && nlink <= MAX_LINKS && (if disk.Union() > 0 then nlink == disk.Union() else nlink == 0 || nlink == disk.work)
      && log != [] && log[|log| - 1] == Logged(disk, store, counted)
      && forall i | 0 <= i < |log| :: Accurate(log[i])
    }

    /** A name of the file that has, or has not, been copied up. */
    ghost predicate HasName(hasAlias: bool)
      reads this
    {
      if hasAlias then disk.aliases > 0 else disk.uncovered > 0 && (disk.index.NoIndex? || disk.index.Present?)
    }

    /** The xattr is relative to the upper inode, so it follows the links of the upper inode. */
    ghost predicate StoredUpper()
      reads this
    {
      disk.aliases > 0 && disk.Stored().Some? && disk.Stored().value.base.Upper?
    }

    /** What every operation keeps, and what it adds to the log: nothing that counts work links, unless there are any. */
    twostate predicate Continues()
      reads this
    {
      && Valid() && old(log) <= log
      && disk.lowerNlink == old(disk).lowerNlink && (old(disk).index.Present? && disk.Union() > 0 ==> disk.index.Present?)
      && (old(store).work == 0 && old(disk).work == 0 ==> store.work == 0 && forall i | |old(log)| <= i < |log| :: log[i].store.work == 0)
    }

    /** The index of a file without names is removed or whited out, unless that fails or work links hold the inode. */
    function Cleaned(d: Disk, faults: set<Fault>): Index {
      if !d.index.Present? || d.work > 0 || IndexRemove in faults then d.index else if indexAll then WhitedOut else Removed
    }

    /** A lower file seen for the first time: no name of it is covered. */
    constructor Fresh(lowerNlink: nat, indexAll: bool)
      requires 1 <= lowerNlink < MAX_LINKS && (lowerNlink > 1 || indexAll)
      ensures Valid() && disk == Disk(lowerNlink, None, NoIndex, 0, 0, lowerNlink) && nlink == lowerNlink
      ensures store == disk && log == [Logged(disk, store, counted)]
    {
      this.indexAll := indexAll;
      disk := Disk(lowerNlink, None, NoIndex, 0, 0, lowerNlink);
      nlink := lowerNlink;
      store, counted := Disk(lowerNlink, None, NoIndex, 0, 0, lowerNlink), 0;
      log := [Logged(Disk(lowerNlink, None, NoIndex, 0, 0, lowerNlink), Disk(lowerNlink, None, NoIndex, 0, 0, lowerNlink), 0)];
    }

    /** The inode as ovl_get_inode sets it up again after a crash in a logged state. */
    constructor Mount(s: Logged, indexAll: bool)
      requires Accurate(s) && !CountedWork(s) && s.disk.xattr.Some? && s.disk.Union() > 0 && s.disk.lowerNlink > 1
      ensures Valid() && disk == s.disk.Mounted() && nlink == disk.Union()
    {
      RecountAny(s, s.disk.Mounted().UpperNlink());
      this.indexAll := indexAll;
      disk := s.disk.Mounted();
      nlink := s.disk.Mounted().Recount(s.disk.Mounted().UpperNlink());
      store, counted := s.store, s.nlink;
      log := [Logged(s.disk.Mounted(), s.store, s.nlink)];
    }

    /** One change on disk that does not store the xattr. */
    method Reach(d: Disk)
      modifies this`disk, this`log
      ensures disk == d && log == old(log) + [Logged(d, store, counted)]
    {
      disk, log := d, log + [Logged(d, store, counted)];
    }

    /** ovl_set_nlink_common: the warning about the buffer never fires. */
    method SetNlink(base: Base, fails: bool) returns (ok: bool)
      requires Valid() && disk.index.Present? && (base.Lower? ==> disk.Union() > 0)
      modifies this`disk, this`log, this`store, this`counted
      ensures Continues() && ok == !fails
      ensures disk == old(disk).(xattr := disk.xattr)
      ensures fails ==> unchanged(this)
      ensures ok ==> disk.Stored().Some? && disk.Stored().value.base == base && store == old(disk) && counted == nlink
    {
      if fails {
        return false;
      }
      var diff := AsInt(nlink - (if base.Lower? then disk.lowerNlink else disk.UpperNlink()));
      RoundTrip(Stored(base, diff));
      var buf := FormatNlink(Stored(base, diff));
      assert |buf| < BUF_SIZE;
      store, counted := disk, nlink;
      Reach(disk.(xattr := Some(buf)));
      ok := true;
    }

    /** ovl_do_copy_up for an indexed file: it becomes the index entry, without a name yet. */
    method CopyUpToIndex(faults: set<Fault>) returns (ok: bool)
      requires Valid() && disk.index.NoIndex? && disk.uncovered > 0
      modifies this`disk, this`log, this`store, this`counted
      ensures Continues() && disk == old(disk).(index := disk.index, xattr := disk.xattr)
      ensures ok == (IndexCreate !in faults && IndexStore !in faults)
      ensures ok ==> disk.index.Present?
    {
      if IndexCreate in faults {
        return false;
      }
      Reach(disk.(index := Present));
      ok := SetNlink(Upper, IndexStore in faults);
    }

    /** ovl_link_up */
    method LinkUp(faults: set<Fault>) returns (ok: bool)
      requires Valid() && disk.index.Present? && disk.uncovered > 0
      modifies this`disk, this`log, this`store, this`counted
      ensures Continues() && disk.index.Present? && disk.work == old(disk).work
      ensures disk.aliases == old(disk).aliases || disk.aliases == old(disk).aliases + 1
      ensures disk.Union() == old(disk).Union()
      ensures ok ==> disk.aliases == old(disk).aliases + 1
      ensures ok == (faults !! {LowerStore, LinkUpper, LinkedStore} && old(disk).UpperNlink() < MAX_LINKS)
      ensures ok ==> disk.index == old(disk).index
    {
      ok := SetNlink(Lower, LowerStore in faults);
      if !ok {
        return;
      }
      if LinkUpper in faults || disk.UpperNlink() == MAX_LINKS {
        return false;
      }
      Reach(disk.(aliases := disk.aliases + 1, uncovered := disk.uncovered - 1));
      ok := SetNlink(Upper, LinkedStore in faults);
    }

    /** ovl_copy_up_one for a lower name that is not copied up. */
    method CopyUp(faults: set<Fault>) returns (ok: bool)
      requires Valid() && HasName(false)
      modifies this`disk, this`log, this`store, this`counted
      ensures Continues() && disk.work == old(disk).work
      ensures disk.Union() == old(disk).Union()
      ensures disk.aliases == old(disk).aliases || disk.aliases == old(disk).aliases + 1
      ensures ok ==> disk.index.Present? && disk.aliases == old(disk).aliases + 1
      ensures ok == CanCopyUp(old(disk), faults)
    {
      ok := true;
      if disk.index.NoIndex? {
        ok := CopyUpToIndex(faults);
      }
      if ok {
        ok := LinkUp(faults);
      }
    }

    /** ovl_nlink_start: a name that is only in the lower layers is copied up first. */
    method NlinkStart(hasAlias: bool, faults: set<Fault>) returns (ok: bool)
      requires Valid() && HasName(hasAlias)
      modifies this`disk, this`log, this`store, this`counted
      ensures Continues() && disk.work == old(disk).work
      ensures disk.Union() == old(disk).Union()
      ensures disk.aliases == old(disk).aliases || (!hasAlias && disk.aliases == old(disk).aliases + 1)
      ensures ok ==> disk.index.Present? && StoredUpper() && store.work == disk.work
      ensures ok ==> disk.aliases == old(disk).aliases + if hasAlias then 0 else 1
      ensures ok == ((hasAlias || CanCopyUp(old(disk), faults)) && faults !! {InodeLock, StartStore})
    {
      if !hasAlias {
        ok := CopyUp(faults);
        if !ok {
          return;
        }
      }
      if InodeLock in faults {
        return false;
      }
      ok := SetNlink(Upper, StartStore in faults);
    }

    /** ovl_nlink_end */
    method NlinkEnd(faults: set<Fault>)
      requires Valid()
      modifies this
      ensures Continues()
      ensures disk.Union() == old(disk).Union() && disk.aliases == old(disk).aliases && disk.work == old(disk).work
      ensures old(nlink) > 0 ==> unchanged(this)
      ensures disk.index == if old(nlink) == 0 then Cleaned(old(disk), faults) else old(disk).index
      ensures old(nlink) == 0 && disk.index.Present? ==> disk.Mounted().Orphan()
    {
      if disk.index.Present? && nlink == 0 {
        CleanupIndex(faults);
      }
    }

    /** ovl_cleanup_index: the index of a file without names goes, or stays as an orphan. */
    method CleanupIndex(faults: set<Fault>)
      requires Valid() && disk.index.Present? && nlink == 0
      modifies this
      ensures Continues()
      ensures disk.Union() == 0 && disk.aliases == 0 && disk.work == old(disk).work
      ensures disk.index == Cleaned(old(disk), faults)
      ensures disk.index.Present? ==> disk.Mounted().Orphan() && disk.Mounted().UpperNlink() == 1
    {
      if disk.UpperNlink() != 1 {
        nlink := disk.UpperNlink() - 1;
        var _ := SetNlink(Upper, CleanupStore in faults);
        OrphanIff(Logged(disk, store, counted));
        return;
      }
      if IndexRemove in faults {
        OrphanIff(Logged(disk, store, counted));
        return;
      }
      Reach(disk.(index := if indexAll then WhitedOut else Removed, xattr := None));
    }

    /** ovl_create_upper for a hardlink */
    method LinkUpperName(faults: set<Fault>) returns (ok: bool)
      requires Valid() && StoredUpper() && disk.Union() < MAX_LINKS
      modifies this`disk, this`log, this`nlink
      ensures Continues() && StoredUpper()
      ensures disk == old(disk).(aliases := old(disk).aliases + if ok then 1 else 0)
      ensures nlink == old(nlink) + if ok then 1 else 0
      ensures ok == (MakeLink !in faults && old(disk).UpperNlink() < MAX_LINKS)
    {
      if MakeLink in faults || disk.UpperNlink() == MAX_LINKS {
        return false;
      }
      nlink := nlink + 1;
      Reach(disk.(aliases := disk.aliases + 1));
      ok := true;
    }

    /** ovl_create_over_whiteout for a hardlink: the link is made in the work directory and renamed over the whiteout. */
    method LinkOverWhiteout(faults: set<Fault>) returns (ok: bool)
      requires Valid() && StoredUpper() && disk.Union() < MAX_LINKS
      modifies this`disk, this`log, this`nlink
      ensures Continues() && StoredUpper()
      ensures var made := MakeLink !in faults && old(disk).UpperNlink() < MAX_LINKS;
        && ok == (made && RenameLink !in faults)
        && disk == old(disk).(aliases := old(disk).aliases + (if ok then 1 else 0),
                              work := old(disk).work + (if made && !ok && WorkCleanup in faults then 1 else 0))
      ensures nlink == old(nlink) + if ok then 1 else 0
    {
      if MakeLink in faults || disk.UpperNlink() == MAX_LINKS {
        return false;
      }
      Reach(disk.(work := disk.work + 1));
      ok := MoveLink(faults);
    }

    /** The rename of a link from the work directory to its place, or the attempt to remove it again. */
    method MoveLink(faults: set<Fault>) returns (ok: bool)
      requires Valid() && StoredUpper() && disk.Union() < MAX_LINKS && disk.work > 0
      modifies this`disk, this`log, this`nlink
      ensures Continues() && StoredUpper()
      ensures forall i | |old(log)| <= i < |log| :: log[i].store == store
      ensures ok == (RenameLink !in faults)
      ensures disk == old(disk).(aliases := old(disk).aliases + (if ok then 1 else 0),
                                 work := old(disk).work - (if !ok && WorkCleanup in faults then 0 else 1))
      ensures nlink == old(nlink) + if ok then 1 else 0
    {
      if RenameLink in faults {
        if WorkCleanup !in faults {
          Reach(disk.(work := disk.work - 1));
        }
        return false;
      }
      nlink := nlink + 1;
      Reach(disk.(work := disk.work - 1, aliases := disk.aliases + 1));
      ok := true;
    }

    /** ovl_link. The new name may stand on a whiteout. */
    method Link(hasAlias: bool, overWhiteout: bool, faults: set<Fault>) returns (ok: bool)
      requires Valid() && HasName(hasAlias) && disk.Union() < MAX_LINKS
      modifies this
      ensures Continues()
      ensures disk.Union() == old(disk).Union() + if ok then 1 else 0
      ensures ok ==> disk.work == old(disk).work && disk.aliases == old(disk).aliases + if hasAlias then 1 else 2
      ensures ok == (
        && (hasAlias || CanCopyUp(old(disk), faults))
        && faults !! {InodeLock, StartStore, MakeLink} && (overWhiteout ==> RenameLink !in faults)
        && old(disk).IndexedNlink() + (if hasAlias then 0 else 1) < MAX_LINKS)
      ensures (hasAlias && overWhiteout && InodeLock !in faults && StartStore !in faults && MakeLink !in faults
               && RenameLink in faults && WorkCleanup in faults && old(disk).UpperNlink() < MAX_LINKS) ==>
        !ok && disk.work == old(disk).work + 1 && disk.aliases == old(disk).aliases
    {
      if !hasAlias {
        ok := CopyUp(faults);
        if !ok {
          return;
        }
      }
      ok := LinkCopied(overWhiteout, faults);
    }

    /** ovl_link, once the old name is copied up. */
    method LinkCopied(overWhiteout: bool, faults: set<Fault>) returns (ok: bool)
      requires Valid() && HasName(true) && disk.Union() < MAX_LINKS
      modifies this
      ensures Continues()
      ensures disk.Union() == old(disk).Union() + if ok then 1 else 0
      ensures disk.aliases == old(disk).aliases + if ok then 1 else 0
      ensures ok == (
        && faults !! {InodeLock, StartStore, MakeLink} && (overWhiteout ==> RenameLink !in faults)
        && old(disk).UpperNlink() < MAX_LINKS)
      ensures var made := faults !! {InodeLock, StartStore, MakeLink} && old(disk).UpperNlink() < MAX_LINKS;
        disk.work == old(disk).work + if made && overWhiteout && RenameLink in faults && WorkCleanup in faults then 1 else 0
    {
      ok := NlinkStart(true, faults);
      if ok {
        ok := LinkReal(overWhiteout, faults);
      }
    }

    /** The part of ovl_link that makes the link. */
    method LinkReal(overWhiteout: bool, faults: set<Fault>) returns (ok: bool)
      requires Valid() && StoredUpper() && disk.Union() < MAX_LINKS
      modifies this
      ensures Continues()
      ensures disk.uncovered == old(disk).uncovered && disk.aliases == old(disk).aliases + if ok then 1 else 0
      ensures var leftBehind := overWhiteout && RenameLink in faults && WorkCleanup in faults && MakeLink !in faults;
        disk.work == old(disk).work + if leftBehind && old(disk).UpperNlink() < MAX_LINKS then 1 else 0
      ensures ok == (MakeLink !in faults && (overWhiteout ==> RenameLink !in faults) && old(disk).UpperNlink() < MAX_LINKS)
    {
      if overWhiteout {
        ok := LinkOverWhiteout(faults);
      } else {
        ok := LinkUpperName(faults);
      }
      NlinkEnd(faults);
    }

    /** ovl_do_remove, or an overwriting rename, for one name of the file: the upper name is unlinked, or a whiteout or
        the renamed file takes its place, in one step. When the last name is gone, the index is gone too, or the next
        mount will call it orphan. */
    method Unlink(hasAlias: bool, faults: set<Fault>) returns (ok: bool)
      requires Valid() && HasName(hasAlias)
      modifies this
      ensures Continues()
      ensures disk.Union() == old(disk).Union() - if ok then 1 else 0
      ensures disk.work == old(disk).work
      ensures ok ==> disk.aliases == old(disk).aliases - if hasAlias then 1 else 0
      ensures ok == ((hasAlias || CanCopyUp(old(disk), faults)) && faults !! {InodeLock, StartStore, RemoveName})
      ensures ok && disk.Union() == 0 ==>
        disk.index == Cleaned(old(disk).(index := Present), faults) && (disk.index.Present? ==> disk.Mounted().Orphan())
      ensures ok && disk.Union() > 0 ==> disk.index.Present?
    {
      ok := NlinkStart(hasAlias, faults);
      if !ok {
        return;
      }
      ok := RemoveReal(faults);
    }

    /** The part of ovl_do_remove, or of ovl_rename, that takes the name away. */
    method RemoveReal(faults: set<Fault>) returns (ok: bool)
      requires Valid() && StoredUpper()
      modifies this
      ensures Continues() && ok == (RemoveName !in faults)
      ensures disk.uncovered == old(disk).uncovered && disk.work == old(disk).work
      ensures disk.aliases == old(disk).aliases - if ok then 1 else 0
      ensures ok && disk.Union() == 0 ==>
        disk.index == Cleaned(old(disk).(index := Present), faults) && (disk.index.Present? ==> disk.Mounted().Orphan())
      ensures disk.Union() > 0 ==> disk.index == old(disk).index
    {
      ok := RemoveName !in faults;
      if ok {
        nlink := nlink - 1;
        Reach(disk.(aliases := disk.aliases - 1));
      }
      NlinkEnd(faults);
    }
  }

  /** Take a file with several lower names and copy one up. A link over a whiteout whose rename and cleanup both fail
      leaves a link in the work directory, and the next operation on the name counts it in: the next mount then finds
      one name too few. */
  method LeftoverMiscounts(lowerNlink: nat) returns (f: IndexedFile)
    requires 2 <= lowerNlink < MAX_LINKS
    ensures f.Valid() && f.nlink == f.disk.Union() == lowerNlink
    ensures f.disk.Mounted().Recount(0) == lowerNlink - 1
  {
    f := LeftBehind(lowerNlink);
    var _ := f.NlinkStart(true, {});
    RecountShort(Logged(f.disk, f.store, f.counted));
  }

  method LeftBehind(lowerNlink: nat) returns (f: IndexedFile)
    requires 2 <= lowerNlink < MAX_LINKS
    ensures fresh(f) && f.Valid() && f.disk.lowerNlink == lowerNlink
    ensures f.disk.aliases == 1 && f.disk.uncovered == lowerNlink - 1 && f.disk.work == 1
  {
    f := new IndexedFile.Fresh(lowerNlink, false);
    var _ := f.CopyUp({});
    var _ := f.Link(true, true, {RenameLink, WorkCleanup});
  }
}
