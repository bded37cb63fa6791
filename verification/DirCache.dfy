/** The cached listing of a directory that is not listed straight from one real directory: its reference counts, its
    version, and iterating over it in pieces. Every operation holds the lock of the directory's inode. */
module DirCache {
  import opened Paths
  import opened MergedList
  import opened Readdir

  datatype Listed = Listed(name: string, entry: CacheEntry)

  const NO_ENTRY := CacheEntry(Other, 0, 0, false, false)

  function ListedAs(entries: Entries, n: string): Listed {
    Listed(n, if n in entries then entries[n] else NO_ENTRY)
  }

  function ListedNames(s: seq<Listed>): seq<string> {
    seq(|s|, i requires 0 <= i < |s| => s[i].name)
  }

  function ListedAll(names: seq<string>, entries: Entries): seq<Listed> {
    seq(|names|, i requires 0 <= i < |names| => ListedAs(entries, names[i]))
  }

  /** What a listing built now holds. */
  function Listing(m: Mount, hasUpper: bool, layers: seq<seq<DirEnt>>): seq<Listed>
    requires layers != []
  {
    ListedAll(MergedNames(layers), MergedEntries(m, hasUpper, layers))
  }

  // ---------- iterating ----------

  /** The entries that are handed out. */
  function Visible(s: seq<Listed>): seq<Listed> {
    if s == [] then []
    else Visible(s[..|s| - 1]) + if s[|s| - 1].entry.isWhiteout then [] else [s[|s| - 1]]
  }

  lemma {:induction false} VisibleAppend(a: seq<Listed>, b: seq<Listed>)
    ensures Visible(a + b) == Visible(a) + Visible(b)
    decreases |b|
  {
    if b == [] {
      assert a + b == a;
    } else {
      assert (a + b)[..|a + b| - 1] == a + b[..|b| - 1];
      VisibleAppend(a, b[..|b| - 1]);
    }
  }

  lemma {:induction false} VisibleHas(s: seq<Listed>, p: Listed)
    ensures p in Visible(s) <==> p in s && !p.entry.isWhiteout
    decreases |s|
  {
    if s != [] {
      VisibleHas(s[..|s| - 1], p);
      assert s == s[..|s| - 1] + [s[|s| - 1]];
    }
  }

  lemma {:induction false} VisibleUnique(s: seq<Listed>)
    requires Unique(ListedNames(s))
    ensures Unique(ListedNames(Visible(s)))
    decreases |s|
  {
    if s != [] {
      var k := |s| - 1;
      assert ListedNames(s[..k]) == ListedNames(s)[..k];
      VisibleUnique(s[..k]);
      forall i | 0 <= i < |Visible(s[..k])| ensures Visible(s[..k])[i].name != s[k].name {
        VisibleHas(s[..k], Visible(s[..k])[i]);
        var j :| 0 <= j < k && s[..k][j] == Visible(s[..k])[i];
        assert ListedNames(s)[j] != ListedNames(s)[k];
      }
      assert ListedNames(Visible(s)) == ListedNames(Visible(s[..k])) + if s[k].entry.isWhiteout then [] else [s[k].name];
    }
  }

  /** A full iteration hands out each shown name exactly once, as the entry of the topmost layer that holds it, and nothing
      else. */
  lemma IterationShows(m: Mount, hasUpper: bool, layers: seq<seq<DirEnt>>, n: string, entry: CacheEntry)
    requires layers != [] && ListingsOk(layers)
    ensures Unique(ListedNames(Visible(Listing(m, hasUpper, layers))))
    ensures Listed(n, entry) in Visible(Listing(m, hasUpper, layers)) <==>
      Shown(layers, n) && entry == EntryFor(m, hasUpper && Top(layers, n).value.level == 0, Top(layers, n).value.ent)
  {
    var s, names := Listing(m, hasUpper, layers), MergedNames(layers);
    MergedNamesRight(layers, n);
    assert ListedNames(s) == names;
    VisibleUnique(s);
    VisibleHas(s, Listed(n, entry));
    EntriesAreTop(m, hasUpper, layers, n);
    if n in names {
      var i :| 0 <= i < |names| && names[i] == n;
      assert s[i] == ListedAs(MergedEntries(m, hasUpper, layers), n);
    }
  }

  /** How a call ends. */
  datatype End = AllRead | Full | NumberFailed

  /** ovl_cache_update_ino, needed for this entry, fails. */
  predicate NumberFails(p: Listed, failing: set<string>) {
    p.entry.ino == 0 && p.name in failing
  }

  // ---------- the cache ----------

  /** struct ovl_dir_cache. */
  datatype Cache = Cache(refcount: int, version: nat, entries: seq<Listed>)

  /** struct ovl_dir_file, and the position of the file. */
  datatype OpenDir = OpenDir(cache: Option<nat>, cursor: nat, pos: nat)

  function Holders(files: map<nat, OpenDir>, c: nat): set<nat> {
    set f | f in files && files[f].cache == Some(c)
  }

  lemma HoldersChange(files: map<nat, OpenDir>, f: nat, od: OpenDir, c: nat)
    ensures |Holders(files[f := od], c)| ==
      |Holders(files, c)| - (if f in files && files[f].cache == Some(c) then 1 else 0) + (if od.cache == Some(c) then 1 else 0)
  {
    var was, now := Holders(files, c), Holders(files[f := od], c);
    assert was - {f} == now - {f};
    OneLess(was, f);
    OneLess(now, f);
  }

  lemma OneLess(s: set<nat>, x: nat)
    ensures |s| == |s - {x}| + if x in s then 1 else 0
  {
    assert x in s ==> s == (s - {x}) + {x};
    assert x !in s ==> s == s - {x};
  }

  lemma NoHolder(files: map<nat, OpenDir>, c: nat)
    requires |Holders(files, c)| == 0
    ensures forall f | f in files :: files[f].cache != Some(c)
  {
    forall f | f in files ensures files[f].cache != Some(c) {
      assert f !in Holders(files, c);
    }
  }

  lemma HoldersGone(files: map<nat, OpenDir>, f: nat, c: nat)
    requires f in files && files[f].cache != Some(c)
    ensures Holders(files - {f}, c) == Holders(files, c)
  {
  }

  class MergedDir {
    const mount: Mount
    const hasUpper: bool
    /** OVL_TYPE_MERGE; a directory can also be listed this way because it may hold old whiteouts. */
    const isMerge: bool
    var layers: seq<seq<DirEnt>>
    var version: nat
    var slot: Option<nat>
    var caches: map<nat, Cache>
    var files: map<nat, OpenDir>
    var nextCache: nat
    ghost var freed: set<nat>

    ghost predicate Valid()
      reads this
    {
      Counted(None) && Fresh()
    }

    /** Each live cache is counted once for every open file that holds it, and once more if it is held by extra. What
        the slot and the files point to is live, and what was freed is not. */
    ghost predicate Counted(extra: Option<nat>)
      reads this
    {
      && layers != [] && ListingsOk(layers)
      && (slot.Some? ==> slot.value in caches)
      && (extra.Some? ==> extra.value in caches)
      && (forall f | f in files && files[f].cache.Some? :: files[f].cache.value in caches)
      && (forall f | f in files && files[f].cache.Some? :: CursorOk(files[f], caches[files[f].cache.value]))
      && (forall c | c in caches :: caches[c].refcount == |Holders(files, c)| + (if extra == Some(c) then 1 else 0))
      && (forall c | c in caches :: caches[c].refcount > 0 && c < nextCache && c !in freed)
      && (forall c | c in freed :: c < nextCache)
    }

    static ghost predicate CursorOk(od: OpenDir, cache: Cache) {
      od.cursor == if od.pos <= |cache.entries| then od.pos else |cache.entries|
    }

    /** A cache of the current version of a merge directory lists what is there now. */
    ghost predicate Fresh()
      reads this
    {
      && layers != []
      && (forall c | c in caches :: caches[c].version <= version)
      && (isMerge ==> forall c | c in caches && caches[c].version == version :: caches[c].entries == Listing(mount, hasUpper, layers))
    }

    /** The listings that open files other than f go through stay the same, as long as these hold them. */
    twostate predicate ListingsKept(f: nat)
      reads this
    {
      forall g | g in files && g != f && files[g].cache.Some? ::
        var c := files[g].cache.value;
        c in old(caches) && c in caches && caches[c].entries == old(caches)[c].entries
    }

    /** f is still open, and nothing changed for other open files. */
    twostate predicate Kept(f: nat)
      reads this
    {
      && f in files && files.Keys == old(files).Keys && (forall g | g in files && g != f :: files[g] == old(files)[g])
      && ListingsKept(f)
    }

    /** The listing that a call of ovl_iterate goes through. */
    ghost function Sees(f: nat): seq<Listed>
      requires Valid() && f in files
      reads this
    {
      var od := files[f];
      if od.cache.Some? && (od.pos != 0 || caches[od.cache.value].version == version) then caches[od.cache.value].entries
      else if slot.Some? && caches[slot.value].version == version then caches[slot.value].entries
      else Listing(mount, hasUpper, layers)
    }

    /** Is there a listing of the current version that f would go through from its start? */
    ghost predicate HasCurrent(f: nat)
      requires Valid() && f in files
      reads this
    {
      || (files[f].cache.Some? && caches[files[f].cache.value].version == version)
      || (slot.Some? && caches[slot.value].version == version)
    }

    /** Every listing of the current version lists what is there now. */
    ghost predicate AllCurrent()
      requires Valid()
      reads this
    {
      forall c | c in caches && caches[c].version == version :: caches[c].entries == Listing(mount, hasUpper, layers)
    }

    /** Then, and so always in a merge directory, a file read from its start goes through what is there now. */
    lemma SeesCurrent(f: nat)
      requires Valid() && f in files && files[f].pos == 0
      ensures isMerge ==> AllCurrent()
      ensures AllCurrent() ==> Sees(f) == Listing(mount, hasUpper, layers)
    {
    }

    constructor (mount: Mount, hasUpper: bool, isMerge: bool, layers: seq<seq<DirEnt>>)
      requires layers != [] && ListingsOk(layers)
      ensures Valid() && this.mount == mount && this.hasUpper == hasUpper && this.isMerge == isMerge && this.layers == layers
      ensures version == 0 && slot == None && caches == map[] && files == map[]
    {
      this.mount, this.hasUpper, this.isMerge, this.layers := mount, hasUpper, isMerge, layers;
      version, slot, caches, files, nextCache, freed := 0, None, map[], map[], 0, {};
    }

    /** ovl_dir_modified, with the change that it follows. From a state in which all is current, a file at its start
        goes through what is there now exactly if the change got a new version, or there was no listing that could be
        taken for current, or nothing changes in the listing. */
    method Modified(layers': seq<seq<DirEnt>>, impurity: bool)
      requires Valid() && layers' != [] && ListingsOk(layers')
      modifies this`layers, this`version
      ensures Valid() && layers == layers'
      ensures version == old(version) + if isMerge || impurity then 1 else 0
      ensures old(AllCurrent()) ==> forall f | f in files && files[f].pos == 0 ::
        Sees(f) == Listing(mount, hasUpper, layers) <==>
          isMerge || impurity || !old(HasCurrent(f)) || Listing(mount, hasUpper, old(layers)) == Listing(mount, hasUpper, layers)
      ensures old(AllCurrent()) ==>
        (AllCurrent() <==>
          || isMerge || impurity
          || (forall c | c in caches :: caches[c].version != old(version))
          || Listing(mount, hasUpper, old(layers)) == Listing(mount, hasUpper, layers))
    {
      layers := layers';
      if isMerge || impurity {
        version := version + 1;
      }
    }

    /** ovl_dir_open */
    method Open(f: nat)
      requires Valid() && f !in files
      modifies this`files
      ensures Valid() && files == old(files)[f := OpenDir(None, 0, 0)]
    {
      forall c | c in caches {
        HoldersChange(files, f, OpenDir(None, 0, 0), c);
      }
      files := files[f := OpenDir(None, 0, 0)];
    }

    /** ovl_cache_get: the caller will hold the result. */
    method CacheGet() returns (c: nat)
      requires Valid()
      modifies this`slot, this`caches, this`nextCache
      ensures Counted(Some(c)) && Fresh()
      ensures slot == Some(c) && caches[c].version == version
      ensures if old(slot).Some? && old(caches)[old(slot).value].version == version
              then old(slot) == Some(c) && caches == old(caches)[c := old(caches)[c].(refcount := caches[c].refcount)]
              else c !in old(caches) && caches == old(caches)[c := Cache(1, version, Listing(mount, hasUpper, layers))]
    {
      if slot.Some? && version == caches[slot.value].version {
        c := slot.value;
        assert caches[c].refcount != 0;
        caches := caches[c := caches[c].(refcount := caches[c].refcount + 1)];
        return;
      }
      slot := None;
      c := NewCache();
    }

    /** The part of ovl_cache_get that builds a listing. */
    method NewCache() returns (c: nat)
      requires Valid()
      modifies this`slot, this`caches, this`nextCache
      ensures Counted(Some(c)) && Fresh()
      ensures c !in old(caches) && slot == Some(c)
      ensures caches == old(caches)[c := Cache(1, version, Listing(mount, hasUpper, layers))]
    {
      var reader := new MergeReader(mount);
      reader.ReadMerged(layers, hasUpper);
      c := nextCache;
      assert Holders(files, c) == {};
      caches := caches[c := Cache(1, version, ListedAll(reader.list, reader.entries))];
      nextCache, slot := nextCache + 1, Some(c);
    }

    /** ovl_cache_put: a cache is freed with its last reference, and is then in no slot. */
    method CachePut(c: nat)
      requires Counted(Some(c)) && Fresh()
      modifies this`slot, this`caches, this`freed
      ensures Valid()
      ensures if old(caches)[c].refcount == 1 then caches == old(caches) - {c} && freed == old(freed) + {c}
              else caches == old(caches)[c := old(caches)[c].(refcount := old(caches)[c].refcount - 1)] && freed == old(freed)
      ensures slot == if old(caches)[c].refcount == 1 && old(slot) == Some(c) then None else old(slot)
    {
      assert caches[c].refcount > 0;
      if caches[c].refcount - 1 == 0 {
        NoHolder(files, c);
        if slot == Some(c) {
          slot := None;
        }
        caches, freed := caches - {c}, freed + {c};
      } else {
        caches := caches[c := caches[c].(refcount := caches[c].refcount - 1)];
      }
    }

    /** A file gives up its cache. */
    method Drop(f: nat)
      requires Valid() && f in files && files[f].cache.Some?
      modifies this`slot, this`caches, this`freed, this`files
      ensures Valid() && files == old(files)[f := OpenDir(None, 0, old(files)[f].pos)]
      ensures forall c | c in caches :: c in old(caches) && caches[c] == old(caches)[c].(refcount := caches[c].refcount)
      ensures forall c | c in old(caches) && old(files)[f].cache != Some(c) :: c in caches && caches[c] == old(caches)[c]
      ensures slot == old(slot) || (slot == None && old(slot) == old(files)[f].cache)
    {
      var cache, od := files[f].cache.value, OpenDir(None, 0, files[f].pos);
      forall c | c in caches {
        HoldersChange(files, f, od, c);
      }
      files := files[f := od];
      CachePut(cache);
    }

    /** ovl_dir_reset */
    method DirReset(f: nat)
      requires Valid() && f in files
      modifies this`slot, this`caches, this`freed, this`files
      ensures Valid() && Kept(f)
      ensures files[f] == old(files)[f] || files[f] == OpenDir(None, 0, old(files)[f].pos)
      ensures files[f].cache.Some? ==> caches[files[f].cache.value].version == version
      ensures old(files)[f].pos == 0 ==> Sees(f) == old(Sees(f))
      ensures old(AllCurrent()) ==> AllCurrent()
    {
      var cache := files[f].cache;
      if cache.Some? && version != caches[cache.value].version {
        Drop(f);
      }
    }

    /** ovl_dir_release: when the last file is closed, no listing is left. */
    method Release(f: nat)
      requires Valid() && f in files
      modifies this`slot, this`caches, this`freed, this`files
      ensures Valid() && files == old(files) - {f} && ListingsKept(f) && (old(AllCurrent()) ==> AllCurrent())
      ensures files == map[] ==> caches == map[] && slot == None
    {
      if files[f].cache.Some? {
        Drop(f);
      }
      Forget(f);
      forall c | c in caches ensures files != map[] {
        Held(files, c);
      }
    }

    method Forget(f: nat)
      requires Valid() && f in files && files[f].cache.None?
      modifies this`files
      ensures Valid() && files == old(files) - {f}
    {
      forall c | c in caches {
        HoldersGone(files, f, c);
      }
      files := files - {f};
    }

    /** ovl_seek_cursor: the list is walked up to the position. */
    method SeekCursor(f: nat, pos: nat)
      requires Valid() && f in files && files[f].cache.Some?
      modifies this`files
      ensures Valid() && Kept(f)
      ensures files[f].cache == old(files)[f].cache && files[f].pos == pos
    {
      var entries := caches[files[f].cache.value].entries;
      var p, off := 0, 0;
      while p < |entries| && off < pos
        invariant off == p <= |entries| && p <= pos
      {
        p, off := p + 1, off + 1;
      }
      SetPosition(f, p, pos);
    }

    method SetPosition(f: nat, cursor: nat, pos: nat)
      requires Valid() && f in files
      requires files[f].cache.Some? ==> CursorOk(OpenDir(files[f].cache, cursor, pos), caches[files[f].cache.value])
      modifies this`files
      ensures Valid() && f in files && files == old(files)[f := OpenDir(old(files)[f].cache, cursor, pos)]
    {
      var od := OpenDir(files[f].cache, cursor, pos);
      forall c | c in caches {
        HoldersChange(files, f, od, c);
      }
      files := files[f := od];
    }

    /** What is handed out from the position on. The number of an entry that has to be looked up may be impossible to find;
        the call ends before the first such entry, or at the first one that does not fit any more, or at the end. */
    static ghost predicate Handed(entries: seq<Listed>, pos: nat, pos': nat, room: nat, failing: set<string>, out: seq<Listed>, end: End) {
      if pos >= |entries| then pos' == pos && out == [] && end.AllRead?
      else
        && pos <= pos' <= |entries| && out == Visible(entries[pos..pos'])
        && |out| <= room && (forall p | p in out :: !NumberFails(p, failing))
        && if pos' == |entries| then end.AllRead?
           else
             && !entries[pos'].entry.isWhiteout
             && if NumberFails(entries[pos'], failing) then end.NumberFailed? else end.Full? && |out| == room
    }

    /** The loop of ovl_iterate. */
    method Emit(f: nat, room: nat, failing: set<string>) returns (out: seq<Listed>, end: End)
      requires Valid() && f in files && files[f].cache.Some?
      modifies this`files
      ensures Valid() && Kept(f) && files[f].cache == old(files)[f].cache
      ensures Handed(caches[files[f].cache.value].entries, old(files)[f].pos, files[f].pos, room, failing, out, end)
    {
      var od := files[f];
      var cursor;
      out, cursor, end := Scan(caches[od.cache.value].entries, od.cursor, room, failing);
      SetPosition(f, cursor, od.pos + (cursor - od.cursor));
    }

    /** room is how many entries the caller's buffer takes. */
    static method Scan(entries: seq<Listed>, start: nat, room: nat, failing: set<string>) returns (out: seq<Listed>, cursor: nat, end: End)
      requires start <= |entries|
      ensures Handed(entries, start, cursor, room, failing, out, end)
    {
      out, cursor, end := [], start, AllRead;
      while cursor < |entries|
        invariant start <= cursor <= |entries|
        invariant out == Visible(entries[start..cursor])
        invariant |out| <= room && forall p | p in out :: !NumberFails(p, failing)
      {
        var p := entries[cursor];
        VisibleAppend(entries[start..cursor], [p]);
        assert entries[start..cursor + 1] == entries[start..cursor] + [p];
        if !p.entry.isWhiteout {
          if p.entry.ino == 0 && p.name in failing {
            return out, cursor, NumberFailed;
          }
          if |out| == room {
            return out, cursor, Full;
          }
          out := out + [p];
        }
        cursor := cursor + 1;
      }
    }

    /** ovl_dir_llseek with SEEK_SET. Only going back to the start can change the listing that the file goes through. */
    method Llseek(f: nat, offset: nat)
      requires Valid() && f in files
      modifies this`slot, this`caches, this`freed, this`files
      ensures Valid() && Kept(f) && files[f].pos == offset
      ensures offset != 0 || old(files)[f].pos == 0 ==> Sees(f) == old(Sees(f))
      ensures old(files)[f].pos != 0 ==> files[f].cache == old(files)[f].cache
      ensures old(AllCurrent()) ==> AllCurrent()
    {
      if files[f].pos == 0 {
        DirReset(f);
      }
      if offset != files[f].pos {
        if files[f].cache.Some? {
          SeekCursor(f, offset);
        } else {
          SetPosition(f, 0, offset);
        }
      }
    }

    /** ovl_iterate */
    method Iterate(f: nat, room: nat, failing: set<string>) returns (out: seq<Listed>, end: End)
      requires Valid() && f in files
      modifies this`slot, this`caches, this`freed, this`nextCache, this`files
      ensures Valid() && Kept(f)
      ensures Handed(old(Sees(f)), old(files)[f].pos, files[f].pos, room, failing, out, end)
      ensures files[f].cache.Some? && Sees(f) == old(Sees(f))
      ensures old(AllCurrent()) ==> AllCurrent()
    {
      GetListing(f);
      out, end := Emit(f, room, failing);
    }

    /** The part of ovl_iterate that makes sure of a listing. */
    method GetListing(f: nat)
      requires Valid() && f in files
      modifies this`slot, this`caches, this`freed, this`nextCache, this`files
      ensures Valid() && Kept(f) && files[f].pos == old(files)[f].pos
      ensures files[f].cache.Some? && caches[files[f].cache.value].entries == old(Sees(f))
      ensures files[f].pos == 0 ==> caches[files[f].cache.value].version == version
      ensures old(AllCurrent()) ==> AllCurrent()
    {
      Rewind(f);
      if files[f].cache.None? {
        var pos := files[f].pos;
        Acquire(f);
        SeekCursor(f, pos);
      }
    }

    /** A new iteration does not go on with an old listing. */
    method Rewind(f: nat)
      requires Valid() && f in files
      modifies this`slot, this`caches, this`freed, this`files
      ensures Valid() && Kept(f) && files[f].pos == old(files)[f].pos
      ensures files[f].cache.Some? && files[f].pos == 0 ==> caches[files[f].cache.value].version == version
      ensures Sees(f) == old(Sees(f)) && (old(AllCurrent()) ==> AllCurrent())
    {
      if files[f].pos == 0 {
        DirReset(f);
      }
    }

    method Acquire(f: nat)
      requires Valid() && f in files && files[f].cache.None?
      modifies this`slot, this`caches, this`nextCache, this`files
      ensures Valid() && Kept(f)
      ensures files[f].cache.Some? && caches[files[f].cache.value].entries == old(Sees(f))
      ensures slot == files[f].cache && caches[files[f].cache.value].version == version
      ensures old(AllCurrent()) ==> AllCurrent()
    {
      var c := CacheGet();
      Hold(f, c);
    }

    method Hold(f: nat, c: nat)
      requires Counted(Some(c)) && Fresh() && f in files && files[f].cache.None?
      modifies this`files
      ensures Valid() && f in files && files == old(files)[f := OpenDir(Some(c), 0, 0)]
    {
      var od := OpenDir(Some(c), 0, 0);
      forall b | b in caches {
        HoldersChange(files, f, od, b);
      }
      files := files[f := od];
    }
  }

  lemma Held(files: map<nat, OpenDir>, c: nat)
    requires |Holders(files, c)| > 0
    ensures files != map[]
  {
    assert Holders(map[], c) == {};
  }

  /** Only merge directories note every change. In a directory that is listed this way because it may hold whiteouts,
      a file that has been removed is listed even by a directory file opened after that, while another one is open. */
  method RemovedButListed(mount: Mount) returns (now: seq<seq<DirEnt>>, d: MergedDir)
    ensures now != [] && !Shown(now, "a")
    ensures d.Valid() && d.layers == now && !d.isMerge && 1 in d.files && d.files[1] == OpenDir(None, 0, 0)
    ensures "a" in ListedNames(Visible(d.Sees(1)))
  {
    var dots := [DirEnt(".", 1, Directory, false), DirEnt("..", 2, Directory, false)];
    var before := [dots + [DirEnt("a", 3, Other, false)]];
    now := [dots];
    ExampleShown(mount, before, now);
    d := OpenAndList(mount, before);
    ChangeAndOpen(d, now);
  }

  method ChangeAndOpen(d: MergedDir, now: seq<seq<DirEnt>>)
    requires d.Valid() && !d.isMerge && 1 !in d.files && now != [] && ListingsOk(now)
    requires d.slot.Some? && d.caches[d.slot.value].version == d.version
    modifies d
    ensures d.Valid() && d.layers == now && 1 in d.files && d.files[1] == OpenDir(None, 0, 0)
    ensures d.Sees(1) == old(d.caches[d.slot.value].entries)
  {
    d.Modified(now, false);
    d.Open(1);
  }

  method OpenAndList(mount: Mount, layers: seq<seq<DirEnt>>) returns (d: MergedDir)
    requires layers != [] && ListingsOk(layers)
    ensures fresh(d) && d.Valid() && !d.isMerge && d.files.Keys == {0}
    ensures d.slot.Some? && d.caches[d.slot.value].version == d.version
    ensures d.caches[d.slot.value].entries == Listing(mount, true, layers)
  {
    d := new MergedDir(mount, true, false, layers);
    d.Open(0);
    d.Acquire(0);
  }

  lemma ExampleShown(m: Mount, before: seq<seq<DirEnt>>, now: seq<seq<DirEnt>>)
    requires now == [[DirEnt(".", 1, Directory, false), DirEnt("..", 2, Directory, false)]]
    requires before == [now[0] + [DirEnt("a", 3, Other, false)]]
    ensures ListingsOk(before) && ListingsOk(now) && !Shown(now, "a")
    ensures "a" in ListedNames(Visible(Listing(m, true, before)))
  {
    DotsOnly(now[0]);
    OneMoreName(now[0], DirEnt("a", 3, Other, false));
    var a := EntryFor(m, true, DirEnt("a", 3, Other, false));
    IterationShows(m, true, before, "a", a);
    var shown := Visible(Listing(m, true, before));
    var i :| 0 <= i < |shown| && shown[i] == Listed("a", a);
    assert ListedNames(shown)[i] == "a";
  }

  lemma DotsOnly(dots: seq<DirEnt>)
    requires dots == [DirEnt(".", 1, Directory, false), DirEnt("..", 2, Directory, false)]
    ensures ListingOk(dots) && FindIn(dots, "a").None?
  {
    assert "." != "..";
  }

  lemma OneMoreName(layer: seq<DirEnt>, r: DirEnt)
    requires ListingOk(layer) && FindIn(layer, r.name).None? && !r.whiteout && !IsDot(r.name)
    ensures ListingOk(layer + [r]) && FindIn(layer + [r], r.name) == Some(r)
  {
    FindInAppend(layer, r, r.name);
  }
}
