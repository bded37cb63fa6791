/** Reading a directory in pieces: one open file is read, and moved back to positions that earlier calls returned, while
    the directory changes and other files of it are opened, read, moved and closed. */
module DirRuns {
  import opened MergedList
  import opened Readdir
  import opened DirCache

  /** What can happen. Back goes to a position reached earlier, given by its index. */
  datatype Op =
    | Read(room: nat, failing: set<string>)
    | Back(index: nat)
    | Change(layers: seq<seq<DirEnt>>, impurity: bool)
    | OtherOpen(g: nat)
    | OtherRead(g: nat, room: nat, failing: set<string>)
    | OtherSeek(g: nat, offset: nat)
    | OtherClose(g: nat)

  ghost predicate OpOk(op: Op) {
    op.Change? ==> op.layers != [] && ListingsOk(op.layers)
  }

  /** A position that a call returned, and what its reader had read by then. */
  datatype Mark = Mark(pos: nat, seen: seq<Listed>)

  ghost predicate MarkOk(entries: seq<Listed>, m: Mark) {
    m.pos <= |entries| && m.seen == Visible(entries[..m.pos])
  }

  /** Between two operations: the reader has read just what the listing shows before the current position, and likewise
      for every position to go back to. started is the content of the directory when the file was last at its start. */
  ghost predicate Reading(d: MergedDir, f: nat, m: Mark, marks: seq<Mark>, started: seq<seq<DirEnt>>)
    reads d
  {
    && d.Valid() && f in d.files && d.files[f].pos == m.pos && MarkOk(d.Sees(f), m)
    && (m.pos != 0 ==> d.files[f].cache.Some?)
    && (forall i | 0 <= i < |marks| :: MarkOk(d.Sees(f), marks[i]) && (m.pos == 0 ==> marks[i].pos == 0))
    && started != [] && ListingsOk(started) && (d.isMerge ==> d.Sees(f) == Listing(d.mount, d.hasUpper, started))
  }

  lemma HandedOn(entries: seq<Listed>, m: Mark, pos': nat, room: nat, failing: set<string>, out: seq<Listed>, end: End)
    requires MarkOk(entries, m) && MergedDir.Handed(entries, m.pos, pos', room, failing, out, end)
    ensures MarkOk(entries, Mark(pos', m.seen + out)) && (end.AllRead? ==> m.seen + out == Visible(entries))
  {
    if m.pos < |entries| {
      assert entries[..pos'] == entries[..m.pos] + entries[m.pos..pos'];
      VisibleAppend(entries[..m.pos], entries[m.pos..pos']);
    } else {
      assert entries[..m.pos] == entries;
    }
    assert pos' == |entries| ==> entries[..pos'] == entries;
  }

  /** A file at its start has read nothing yet, whatever the listing. */
  lemma Restarted(d: MergedDir, f: nat, m: Mark, marks: seq<Mark>)
    requires d.Valid() && f in d.files && d.files[f].pos == m.pos == 0 && m.seen == []
    requires forall i | 0 <= i < |marks| :: marks[i] == Mark(0, [])
    ensures Reading(d, f, m, marks, d.layers)
  {
    d.SeesCurrent(f);
    assert d.Sees(f)[..0] == [];
  }

  lemma MarksAtStart(entries: seq<Listed>, m: Mark, marks: seq<Mark>)
    requires m.pos == 0 && MarkOk(entries, m) && forall i | 0 <= i < |marks| :: MarkOk(entries, marks[i]) && marks[i].pos == 0
    ensures m.seen == [] && forall i | 0 <= i < |marks| :: marks[i] == Mark(0, [])
  {
    assert entries[..0] == [];
  }

  method ReadTurn(d: MergedDir, f: nat, room: nat, failing: set<string>, m: Mark, marks: seq<Mark>, ghost started: seq<seq<DirEnt>>)
    returns (m': Mark, whole: bool)
    requires Reading(d, f, m, marks, started)
    modifies d
    ensures Reading(d, f, m', marks + [m'], started) && d.layers == old(d.layers)
    ensures whole ==> m'.seen == Visible(d.Sees(f))
  {
    ghost var entries := d.Sees(f);
    var out, end := d.Iterate(f, room, failing);
    HandedOn(entries, m, d.files[f].pos, room, failing, out, end);
    m', whole := Mark(d.files[f].pos, m.seen + out), end.AllRead?;
  }

  method BackTurn(d: MergedDir, f: nat, index: nat, m: Mark, marks: seq<Mark>, ghost started: seq<seq<DirEnt>>)
    returns (m': Mark, marks': seq<Mark>, ghost started': seq<seq<DirEnt>>)
    requires Reading(d, f, m, marks, started) && index < |marks|
    modifies d
    ensures Reading(d, f, m', marks', started') && d.layers == old(d.layers)
    ensures m' == marks[index]
  {
    ghost var entries := d.Sees(f);
    m' := marks[index];
    d.Llseek(f, m'.pos);
    if m'.pos == 0 {
      assert entries[..0] == [];
      marks', started' := [m'], d.layers;
      Restarted(d, f, m', marks');
    } else {
      marks', started' := marks, started;
    }
  }

  method OtherTurn(d: MergedDir, f: nat, op: Op, m: Mark, marks: seq<Mark>, ghost started: seq<seq<DirEnt>>)
    returns (ghost started': seq<seq<DirEnt>>)
    requires Reading(d, f, m, marks, started) && OpOk(op) && !op.Read? && !op.Back?
    modifies d
    ensures Reading(d, f, m, marks, started')
    ensures m.pos != 0 ==> d.Sees(f) == old(d.Sees(f)) && started' == started
  {
    ghost var entries := d.Sees(f);
    started' := started;
    match op {
      case Change(layers, impurity) => d.Modified(layers, impurity);
      case OtherOpen(g) => if g !in d.files { d.Open(g); }
      case OtherRead(g, room, failing) => if g in d.files && g != f { var _, _ := d.Iterate(g, room, failing); }
      case OtherSeek(g, offset) => if g in d.files && g != f { d.Llseek(g, offset); }
      case OtherClose(g) => if g in d.files && g != f { d.Release(g); }
    }
    if m.pos == 0 {
      started' := d.layers;
      MarksAtStart(entries, m, marks);
      Restarted(d, f, m, marks);
    }
  }

  /** However the iteration of a file is split into calls and goes back to positions they returned, and whatever happens
      in between, its reader holds each entry that is shown before the position exactly once and in order; and all of
      them once a call has filled neither its buffer nor failed. For a merge directory the listing is that of what was
      there when the file was last at its start. */
  method Run(d: MergedDir, f: nat, ops: seq<Op>) returns (seen: seq<Listed>, whole: bool, ghost started: seq<seq<DirEnt>>)
    requires d.Valid() && f in d.files && d.files[f].pos == 0
    requires forall i | 0 <= i < |ops| :: OpOk(ops[i])
    modifies d
    ensures d.Valid() && f in d.files && d.files[f].pos <= |d.Sees(f)|
    ensures seen == Visible(d.Sees(f)[..d.files[f].pos])
    ensures whole ==> seen == Visible(d.Sees(f))
    ensures started != [] && ListingsOk(started) && (d.isMerge ==> d.Sees(f) == Listing(d.mount, d.hasUpper, started))
  {
    var m, marks := Mark(0, []), [Mark(0, [])];
    started, whole := d.layers, false;
    Restarted(d, f, m, marks);
    for i := 0 to |ops|
      invariant Reading(d, f, m, marks, started)
      invariant whole ==> m.seen == Visible(d.Sees(f))
    {
      match ops[i] {
        case Read(room, failing) =>
          m, whole := ReadTurn(d, f, room, failing, m, marks, started);
          marks := marks + [m];
        case Back(index) =>
          if index < |marks| {
            m, marks, started := BackTurn(d, f, index, m, marks, started);
            whole := false;
          }
        case _ =>
          started := OtherTurn(d, f, ops[i], m, marks, started);
          whole := whole && m.pos != 0;
      }
    }
    seen := m.seen;
  }

  /** ... so a whole run over a merge directory gives each name shown at its start once, as what its topmost layer holds
      then, and nothing else. */
  lemma WholeRun(d: MergedDir, f: nat, seen: seq<Listed>, started: seq<seq<DirEnt>>, n: string, entry: CacheEntry)
    requires d.Valid() && f in d.files && started != [] && ListingsOk(started)
    requires seen == Visible(d.Sees(f)) && d.Sees(f) == Listing(d.mount, d.hasUpper, started)
    ensures Unique(ListedNames(seen))
    ensures Listed(n, entry) in seen <==>
      Shown(started, n) && entry == EntryFor(d.mount, d.hasUpper && Top(started, n).value.level == 0, Top(started, n).value.ent)
  {
    IterationShows(d.mount, d.hasUpper, started, n, entry);
  }
}
