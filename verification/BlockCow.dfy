/** The block-level copy-on-write layer of file.c and copy_up.c. After copy-up the upper file is
    empty and a status array says, block by block, which of the two real files holds the bytes. */
module BlockCow {
  import opened FlatFile

  const BLOCK_SIZE := 4096
  const OVL_COPY_UP_CHUNK_SIZE := 0x10_0000

  /** Block ids start at 1; the position just past a block belongs to the next one. */
  function GetBlock(pos: nat): (b: nat)
    ensures (b - 1) * BLOCK_SIZE <= pos < b * BLOCK_SIZE
  {
    (pos + BLOCK_SIZE) / BLOCK_SIZE
  }

  function BlockCountFor(size: nat): (n: nat)
    ensures (n - 1) * BLOCK_SIZE < size || n == 0
    ensures size <= n * BLOCK_SIZE
    ensures size > 0 ==> n > 0
  {
    if size % BLOCK_SIZE != 0 then size / BLOCK_SIZE + 1 else size / BLOCK_SIZE
  }

  function CountSet(s: seq<bool>): (n: nat)
    ensures n <= |s|
  {
    if s == [] then 0 else CountSet(s[..|s| - 1]) + if s[|s| - 1] then 1 else 0
  }

  lemma {:induction false} CountSetFull(s: seq<bool>)
    ensures CountSet(s) == |s| <==> forall i | 0 <= i < |s| :: s[i]
  {
    if s != [] {
      CountSetFull(s[..|s| - 1]);
    }
  }

  lemma {:induction false} CountSetUpdate(s: seq<bool>, i: nat)
    requires i < |s| && !s[i]
    ensures CountSet(s[i := true]) == CountSet(s) + 1
  {
    var t := s[i := true];
    if i < |s| - 1 {
      assert t[..|s| - 1] == s[..|s| - 1][i := true];
      CountSetUpdate(s[..|s| - 1], i);
    } else {
      assert t[..|s| - 1] == s[..|s| - 1];
    }
  }

  lemma {:induction false} CountSetNone(s: seq<bool>)
    requires forall i | 0 <= i < |s| :: !s[i]
    ensures CountSet(s) == 0
  {
    if s != [] {
      CountSetNone(s[..|s| - 1]);
    }
  }

  // ---------- the two real files and the status array, as values ----------

  datatype View = View(lower: seq<byte>, upper: seq<byte>, status: seq<bool>, copyCount: nat, cow: bool) {
    function BlockCount(): int {
      |status| - 1
    }

    /** Does the status array send reads of block b to the lower file? */
    predicate Uncopied(b: int) {
      1 <= b <= BlockCount() && !status[b]
    }
  }

  /** Number of set entries among blocks 1..block_count. */
  function Copied(status: seq<bool>): nat
    requires |status| > 0
  {
    CountSet(status[1..])
  }

  ghost predicate ByteAgrees(v: View, flat: seq<byte>, p: nat)
    requires p < |flat|
  {
    if v.Uncopied(GetBlock(p)) then
      && flat[p] == At(v.lower, p)
      && (|v.lower| <= p < |v.upper| ==> v.upper[p] == 0)
    else
      p < |v.upper| && v.upper[p] == flat[p]
  }

  /** The block-state invariant: v represents the flat file. It is kept by every write, also by a write
      that leaves a gap past the end of the file. */
  ghost predicate Agrees(v: View, flat: seq<byte>) {
    if !v.cow then v.upper == flat
    else
      && v.lower != []
      && |v.status| == BlockCountFor(|v.lower|) + 1
      && v.copyCount == Copied(v.status) < v.BlockCount()
      && |v.lower| <= |flat|
      && |v.upper| <= |flat|
      && (|v.lower| < |flat| ==> |v.upper| == |flat|)
      && forall p | 0 <= p < |flat| :: ByteAgrees(v, flat, p)
  }

  /** Once the last block is copied, the upper file has the full length. */
  lemma LastCopiedFullLength(v: View, flat: seq<byte>)
    requires Agrees(v, flat) && v.cow && !v.Uncopied(v.BlockCount())
    ensures |v.upper| == |flat|
  {
    assert ByteAgrees(v, flat, |flat| - 1);
  }

  // ---------- one write, as a relation between views ----------

  datatype WriteCall = WriteCall(pos: nat, data: seq<byte>, append: bool)

  ghost predicate EdgeByte(v: View, u: seq<byte>, p: nat)
    requires p < |u|
  {
    || u[p] == At(v.upper, p)
    || (p < |v.lower| && v.Uncopied(GetBlock(p)) && u[p] == v.lower[p])
  }

  /** u is the upper file after some edge copying, complete or broken off: only bytes of uncopied
      blocks change, and they change to the lower file's bytes. */
  ghost predicate EdgeCopied(v: View, u: seq<byte>) {
    && |v.upper| <= |u| <= Max(|v.upper|, |v.lower|)
    && forall p | 0 <= p < |u| :: EdgeByte(v, u, p)
  }

  ghost predicate ByteCopied(v: View, u: seq<byte>, p: nat) {
    p < |u| && p < |v.lower| && u[p] == v.lower[p]
  }

  /** If block b was uncopied, u now holds all bytes the lower file has there. */
  ghost predicate BlockComplete(v: View, u: seq<byte>, b: nat) {
    v.Uncopied(b) ==>
      forall p: nat | (b - 1) * BLOCK_SIZE <= p < Min(b * BLOCK_SIZE, |v.lower|) :: ByteCopied(v, u, p)
  }

  function FirstBlock(v: View, c: WriteCall): nat
    requires |v.status| > 0
  {
    if c.append then v.BlockCount() else GetBlock(c.pos)
  }

  function LastBlock(v: View, c: WriteCall): nat
    requires |v.status| > 0
  {
    if c.append then v.BlockCount() else GetBlock(c.pos + |c.data|)
  }

  function Mark(status: seq<bool>, first: nat, last: nat): (r: seq<bool>)
    ensures |r| == |status|
  {
    seq(|status|, i requires 0 <= i < |status| => status[i] || first <= i <= last)
  }

  /** The edge blocks that a write needs from the lower file: an append the last block, another write the first block if
      it starts inside it, and the block its end falls into. */
  ghost function NeededCopies(v: View, c: WriteCall): set<int> {
    set b | 1 <= b <= v.BlockCount() && v.Uncopied(b) &&
      (if c.append then b == v.BlockCount()
       else (b - 1) * BLOCK_SIZE < c.pos < b * BLOCK_SIZE || (b - 1) * BLOCK_SIZE <= c.pos + |c.data| < b * BLOCK_SIZE)
  }

  ghost predicate WriteStep(v: View, c: WriteCall, ok: bool, w: View) {
    if !v.cow then
      ok && w == v.(upper := WriteAt(v.upper, if c.append then |v.upper| else c.pos, c.data))
    else
      && |v.status| > 0
      && exists u :: EdgeCopied(v, u) && WriteAfterEdges(v, c, ok, u, w)
  }

  ghost predicate WriteAfterEdges(v: View, c: WriteCall, ok: bool, u: seq<byte>, w: View)
    requires |v.status| > 0
  {
    if !ok then w == v.(upper := u) && NeededCopies(v, c) != {}
    else
      && (c.append || c.pos > (FirstBlock(v, c) - 1) * BLOCK_SIZE ==> BlockComplete(v, u, FirstBlock(v, c)))
      && BlockComplete(v, u, LastBlock(v, c))
      && var marked := Mark(v.status, FirstBlock(v, c), LastBlock(v, c));
      w == v.(upper := WriteAt(u, if c.append then |u| else c.pos, c.data), status := marked,
              copyCount := Copied(marked), cow := Copied(marked) != v.BlockCount())
  }

  /** The flat file after the same call; a failed call leaves it alone. */
  function FlatWrite(flat: seq<byte>, c: WriteCall, ok: bool): seq<byte> {
    if ok then WriteAt(flat, if c.append then |flat| else c.pos, c.data) else flat
  }

  lemma EdgeCopyAgrees(v: View, u: seq<byte>, flat: seq<byte>)
    requires Agrees(v, flat) && v.cow && EdgeCopied(v, u)
    ensures Agrees(v.(upper := u), flat)
  {
    var w := v.(upper := u);
    forall p | 0 <= p < |flat| ensures ByteAgrees(w, flat, p) {
      assert ByteAgrees(v, flat, p);
      if p < |u| { assert EdgeByte(v, u, p); }
    }
  }

  /** An append lands at the end of the flat file. */
  lemma AppendOffset(v: View, u: seq<byte>, flat: seq<byte>)
    requires Agrees(v, flat) && v.cow && EdgeCopied(v, u) && BlockComplete(v, u, v.BlockCount())
    ensures |u| == |flat|
  {
    if v.Uncopied(v.BlockCount()) {
      var lastByte := |v.lower| - 1;
      assert (v.BlockCount() - 1) * BLOCK_SIZE <= lastByte < Min(v.BlockCount() * BLOCK_SIZE, |v.lower|);
      assert ByteCopied(v, u, lastByte);
    } else {
      LastCopiedFullLength(v, flat);
    }
  }

  /** An old byte outside the written range keeps its value. */
  lemma KeptByteAgrees(v: View, c: WriteCall, u: seq<byte>, w: View, flat: seq<byte>, p: nat)
    requires Agrees(v, flat) && v.cow && c.data != []
    requires EdgeCopied(v, u) && WriteAfterEdges(v, c, true, u, w)
    requires p < |flat| && (c.append || !(c.pos <= p < c.pos + |c.data|))
    ensures ByteAgrees(w, FlatWrite(flat, c, true), p)
  {
    if c.append {
      AppendOffset(v, u, flat);
    }
    var first, last, b := FirstBlock(v, c), LastBlock(v, c), GetBlock(p);
    assert ByteAgrees(v, flat, p);
    assert At(w.upper, p) == At(u, p);
    if p < |u| {
      assert EdgeByte(v, u, p);
    }
    if v.Uncopied(b) && first <= b <= last {
      if p < |v.lower| {
        assert c.append || p < c.pos ==> b == first;
        assert !c.append && p >= c.pos ==> b == last;
        assert ByteCopied(v, u, p);
      } else {
        assert |v.upper| == |flat|;
      }
    }
  }

  /** A byte that the write puts past the old end, or writes, is the flat file's byte. */
  lemma NewByteAgrees(v: View, c: WriteCall, u: seq<byte>, w: View, flat: seq<byte>, p: nat)
    requires Agrees(v, flat) && v.cow && c.data != []
    requires EdgeCopied(v, u) && WriteAfterEdges(v, c, true, u, w)
    requires p < |FlatWrite(flat, c, true)|
    requires p >= |flat| || (!c.append && c.pos <= p < c.pos + |c.data|)
    ensures ByteAgrees(w, FlatWrite(flat, c, true), p)
  {
    if c.append {
      AppendOffset(v, u, flat);
    }
    assert p < |w.upper| && w.upper[p] == FlatWrite(flat, c, true)[p];
    if !(|u| <= p < c.pos) || c.append {
      assert !w.Uncopied(GetBlock(p));
    }
  }

  lemma AllCopiedIsUpper(w: View, flat: seq<byte>)
    requires |w.upper| <= |flat| && |w.status| > 0 && Copied(w.status) == w.BlockCount()
    requires forall p | 0 <= p < |flat| :: ByteAgrees(w, flat, p)
    ensures w.upper == flat
  {
    CountSetFull(w.status[1..]);
    forall p | 0 <= p < |flat| ensures p < |w.upper| && w.upper[p] == flat[p] {
      assert ByteAgrees(w, flat, p);
      assert 1 <= GetBlock(p) <= w.BlockCount() ==> w.status[1..][GetBlock(p) - 1];
    }
    if |flat| > 0 {
      assert ByteAgrees(w, flat, |flat| - 1);
      assert flat[|flat| - 1] == w.upper[|flat| - 1];
    }
  }

  /** Every write, complete or failed during edge copying, keeps the invariant and acts on the
      flat file as pwrite or append does. */
  lemma WriteRefines(v: View, c: WriteCall, ok: bool, w: View, flat: seq<byte>)
    requires Agrees(v, flat) && c.data != []
    requires WriteStep(v, c, ok, w)
    ensures Agrees(w, FlatWrite(flat, c, ok))
  {
    if v.cow {
      var u :| EdgeCopied(v, u) && WriteAfterEdges(v, c, ok, u, w);
      EdgeCopyAgrees(v, u, flat);
      if ok {
        var flat' := FlatWrite(flat, c, true);
        if c.append { AppendOffset(v, u, flat); }
        forall p | 0 <= p < |flat'| ensures ByteAgrees(w, flat', p) {
          if p < |flat| && (c.append || !(c.pos <= p < c.pos + |c.data|)) {
            KeptByteAgrees(v, c, u, w, flat, p);
          } else {
            NewByteAgrees(v, c, u, w, flat, p);
          }
        }
        if w.cow {
          assert Copied(w.status) <= w.BlockCount();
        } else {
          AllCopiedIsUpper(w, flat');
        }
      }
    }
  }

  // ---------- whole runs ----------

  /** What copy-up sets up for a lower file of which `size` bytes are wanted (0 when opened with O_TRUNC). */
  function CopiedUp(lower: seq<byte>, size: nat): View {
    var n := BlockCountFor(size);
    View(lower, [], seq(n + 1, _ => false), 0, size != 0)
  }

  lemma CopyUpAgrees(lower: seq<byte>, truncate: bool)
    ensures Agrees(CopiedUp(lower, if truncate then 0 else |lower|), if truncate then [] else lower)
  {
    var flat := if truncate then [] else lower;
    var v := CopiedUp(lower, |flat|);
    CountSetNone(v.status[1..]);
    forall p | 0 <= p < |flat| && v.cow ensures ByteAgrees(v, flat, p) {
    }
  }

  function FlatRun(flat: seq<byte>, calls: seq<WriteCall>, oks: seq<bool>): seq<byte>
    requires |calls| == |oks|
  {
    if calls == [] then flat
    else FlatWrite(FlatRun(flat, calls[..|calls| - 1], oks[..|oks| - 1]), calls[|calls| - 1], oks[|oks| - 1])
  }

  ghost predicate IsRun(views: seq<View>, calls: seq<WriteCall>, oks: seq<bool>) {
    && |views| == |calls| + 1 == |oks| + 1
    && forall i | 0 <= i < |calls| :: calls[i].data != [] && WriteStep(views[i], calls[i], oks[i], views[i + 1])
  }

  /** Over every run of writes and appends from a fresh copy-up, failures included, the two real files
      together represent exactly what a single flat file would hold. */
  lemma {:induction false} RunRefines(lower: seq<byte>, truncate: bool, views: seq<View>, calls: seq<WriteCall>, oks: seq<bool>)
    requires IsRun(views, calls, oks)
    requires views[0] == CopiedUp(lower, if truncate then 0 else |lower|)
    ensures Agrees(views[|calls|], FlatRun(if truncate then [] else lower, calls, oks))
  {
    var n := |calls|;
    if n == 0 {
      CopyUpAgrees(lower, truncate);
    } else {
      RunRefines(lower, truncate, views[..n], calls[..n - 1], oks[..n - 1]);
      WriteRefines(views[n - 1], calls[n - 1], oks[n - 1], views[n],
                   FlatRun(if truncate then [] else lower, calls[..n - 1], oks[..n - 1]));
    }
  }

  // ---------- reads ----------

  /** A gap write has put bytes beyond the last lower block while that block, only partly backed by the
      lower file, is still uncopied. */
  ghost predicate Torn(v: View, flat: seq<byte>) {
    && v.cow
    && v.Uncopied(v.BlockCount())
    && |v.lower| % BLOCK_SIZE != 0
    && |v.lower| < |flat|
  }

  /** Where a read that starts at pos runs out of bytes. */
  ghost function ReadLimit(v: View, flat: seq<byte>, pos: nat): nat {
    if Torn(v, flat) && pos < v.BlockCount() * BLOCK_SIZE then |v.lower| else |flat|
  }

  /** The bytes a read returns, when it returns. */
  ghost function ReadResult(v: View, flat: seq<byte>, pos: nat, count: nat): seq<byte> {
    ReadAt(flat[..ReadLimit(v, flat, pos)], pos, count)
  }

  /** The requests on which the read loop never makes progress again: they pass the end of the file,
      and that end lies in the last lower block, which is already copied. */
  ghost predicate Hangs(v: View, flat: seq<byte>, pos: nat, count: nat) {
    && v.cow
    && count > 0
    && pos + count > |flat|
    && Max(pos, |flat|) < v.BlockCount() * BLOCK_SIZE
    && !v.Uncopied(v.BlockCount())
  }

  /** A read inside the file is exact iff it does not touch the tear. */
  lemma InRangeReadExact(v: View, flat: seq<byte>, pos: nat, count: nat)
    requires Agrees(v, flat) && 0 < count && pos + count <= |flat|
    ensures !Hangs(v, flat, pos, count)
    ensures ReadResult(v, flat, pos, count) == flat[pos..pos + count]
       <==> !(Torn(v, flat) && pos < v.BlockCount() * BLOCK_SIZE && |v.lower| < pos + count)
  {
    if Torn(v, flat) && pos < v.BlockCount() * BLOCK_SIZE && |v.lower| < pos + count {
      assert |ReadResult(v, flat, pos, count)| < count;
    }
  }

  /** Exactly which completed writes leave the file torn. A write at or before the end of an untorn
      file never does, an append never does, and copying the last block repairs it. */
  lemma TornAfterWrite(v: View, c: WriteCall, w: View, flat: seq<byte>)
    requires Agrees(v, flat) && v.cow && c.data != [] && WriteStep(v, c, true, w)
    ensures Torn(w, FlatWrite(flat, c, true)) <==>
      && !c.append
      && v.Uncopied(v.BlockCount())
      && |v.lower| % BLOCK_SIZE != 0
      && (FirstBlock(v, c) > v.BlockCount() || (LastBlock(v, c) < v.BlockCount() && Torn(v, flat)))
    ensures !Torn(v, flat) && (c.append || c.pos <= |flat|) ==> !Torn(w, FlatWrite(flat, c, true))
  {
    var u :| EdgeCopied(v, u) && WriteAfterEdges(v, c, true, u, w);
    WriteRefines(v, c, true, w, flat);
    CountSetFull(w.status[1..]);
    assert v.Uncopied(v.BlockCount()) && !w.cow ==> w.status[1..][v.BlockCount() - 1];
  }

  /** A gap write does tear: one write at 5000 on a ten-byte lower file, then a one-byte read at offset 10
      inside the file returns nothing. */
  lemma GapWriteTears(lower: seq<byte>, w: View)
    requires |lower| == 10
    requires WriteStep(CopiedUp(lower, 10), WriteCall(5000, [7], false), true, w)
    ensures var flat := WriteAt(lower, 5000, [7]);
      && Agrees(w, flat) && |flat| == 5001 && flat[10..11] == [0] && ReadResult(w, flat, 10, 1) == []
  {
    var v, c := CopiedUp(lower, 10), WriteCall(5000, [7], false);
    CopyUpAgrees(lower, false);
    WriteRefines(v, c, true, w, lower);
    TornAfterWrite(v, c, w, lower);
  }

  /** No call writes beyond the end that the flat file has by then. */
  ghost predicate InBounds(flat: seq<byte>, calls: seq<WriteCall>, oks: seq<bool>)
    requires |calls| == |oks|
  {
    forall i | 0 <= i < |calls| :: calls[i].append || calls[i].pos <= |FlatRun(flat, calls[..i], oks[..i])|
  }

  /** A run without its last call. */
  lemma RunPrefix(flat: seq<byte>, views: seq<View>, calls: seq<WriteCall>, oks: seq<bool>)
    requires IsRun(views, calls, oks) && calls != [] && InBounds(flat, calls, oks)
    ensures var k := |calls| - 1;
      IsRun(views[..k + 1], calls[..k], oks[..k]) && InBounds(flat, calls[..k], oks[..k])
  {
    var k := |calls| - 1;
    forall i | 0 <= i < k ensures calls[..k][i].append || calls[..k][i].pos <= |FlatRun(flat, calls[..k][..i], oks[..k][..i])| {
      assert calls[..k][..i] == calls[..i] && oks[..k][..i] == oks[..i];
    }
  }

  /** An in-bounds call, complete or failed, does not tear a file. */
  lemma StaysUntorn(v: View, c: WriteCall, ok: bool, w: View, flat: seq<byte>)
    requires Agrees(v, flat) && c.data != [] && WriteStep(v, c, ok, w)
    requires !Torn(v, flat) && (c.append || c.pos <= |flat|)
    ensures !Torn(w, FlatWrite(flat, c, ok))
  {
    if v.cow && ok {
      TornAfterWrite(v, c, w, flat);
    }
  }

  lemma LastStaysUntorn(start: seq<byte>, views: seq<View>, calls: seq<WriteCall>, oks: seq<bool>)
    requires IsRun(views, calls, oks) && calls != [] && InBounds(start, calls, oks)
    requires var k := |calls| - 1;
      Agrees(views[k], FlatRun(start, calls[..k], oks[..k])) && !Torn(views[k], FlatRun(start, calls[..k], oks[..k]))
    ensures !Torn(views[|calls|], FlatRun(start, calls, oks))
  {
    var k := |calls| - 1;
    StaysUntorn(views[k], calls[k], oks[k], views[k + 1], FlatRun(start, calls[..k], oks[..k]));
  }

  /** No run of in-bounds writes and appends from a fresh copy-up leaves the file torn. */
  lemma {:induction false} RunUntorn(lower: seq<byte>, truncate: bool, views: seq<View>, calls: seq<WriteCall>, oks: seq<bool>)
    requires IsRun(views, calls, oks)
    requires views[0] == CopiedUp(lower, if truncate then 0 else |lower|)
    requires InBounds(if truncate then [] else lower, calls, oks)
    ensures !Torn(views[|calls|], FlatRun(if truncate then [] else lower, calls, oks))
  {
    if calls != [] {
      var k := |calls| - 1;
      RunPrefix(if truncate then [] else lower, views, calls, oks);
      RunUntorn(lower, truncate, views[..k + 1], calls[..k], oks[..k]);
      RunRefines(lower, truncate, views[..k + 1], calls[..k], oks[..k]);
      LastStaysUntorn(if truncate then [] else lower, views, calls, oks);
    }
  }

  /** So after any run of in-bounds writes and appends, every in-range read terminates and returns exactly the bytes
      that a single flat file would hold. */
  lemma RunReads(lower: seq<byte>, truncate: bool, views: seq<View>, calls: seq<WriteCall>, oks: seq<bool>, pos: nat, count: nat)
    requires IsRun(views, calls, oks)
    requires views[0] == CopiedUp(lower, if truncate then 0 else |lower|)
    requires InBounds(if truncate then [] else lower, calls, oks)
    requires pos + count <= |FlatRun(if truncate then [] else lower, calls, oks)|
    ensures var v, flat := views[|calls|], FlatRun(if truncate then [] else lower, calls, oks);
      !Hangs(v, flat, pos, count) && ReadResult(v, flat, pos, count) == flat[pos..pos + count]
  {
    RunRefines(lower, truncate, views, calls, oks);
    RunUntorn(lower, truncate, views, calls, oks);
    if count > 0 {
      InRangeReadExact(views[|calls|], FlatRun(if truncate then [] else lower, calls, oks), pos, count);
    }
  }

  /** A read past the end does hang: after one byte written at 4500 into a lower file of 5000 bytes, asking for the
      block at 4096 never returns. */
  lemma HangReached(lower: seq<byte>, w: View)
    requires |lower| == 5000
    requires WriteStep(CopiedUp(lower, 5000), WriteCall(4500, [7], false), true, w)
    ensures var flat := WriteAt(lower, 4500, [7]); Agrees(w, flat) && |flat| == 5000 && Hangs(w, flat, 4096, 4096)
  {
    var v, c := CopiedUp(lower, 5000), WriteCall(4500, [7], false);
    CopyUpAgrees(lower, false);
    WriteRefines(v, c, true, w, lower);
    assert w.status[1..] == [false, true];
    assert CountSet([false, true]) == 1 by {
      assert [false, true][..1] == [false];
    }
  }

  ghost predicate SameByte(f: seq<byte>, g: seq<byte>, p: nat) {
    p < |f| ==> p < |g| && f[p] == g[p]
  }

  lemma SameRead(f: seq<byte>, g: seq<byte>, pos: nat, count: nat)
    requires forall p: nat | pos <= p < pos + count :: SameByte(f, g, p)
    requires |f| < pos + count ==> |g| <= Max(|f|, pos)
    ensures ReadAt(f, pos, count) == ReadAt(g, pos, count)
  {
    var x, y := ReadAt(f, pos, count), ReadAt(g, pos, count);
    if |x| > 0 {
      assert SameByte(f, g, pos + |x| - 1);
    }
    forall i | 0 <= i < |x| ensures i < |y| && x[i] == y[i] {
      assert SameByte(f, g, pos + i);
    }
  }

  /** Inside one block, or above the last lower block, the real file that the status array selects
      yields what is left of the file. */
  lemma ChunkAgrees(v: View, flat: seq<byte>, pos: nat, kiPos: nat, count: nat)
    requires Agrees(v, flat) && v.cow && pos <= kiPos && count > 0
    requires kiPos == pos || kiPos <= ReadLimit(v, flat, pos)
    requires var b := GetBlock(kiPos); b > v.BlockCount() || kiPos + count <= b * BLOCK_SIZE
    ensures var src := if v.Uncopied(GetBlock(kiPos)) then v.lower else v.upper;
      ReadAt(src, kiPos, count) == ReadAt(flat[..ReadLimit(v, flat, pos)], kiPos, count)
  {
    var b, limit := GetBlock(kiPos), ReadLimit(v, flat, pos);
    var avail := flat[..limit];
    if v.Uncopied(b) {
      assert b < v.BlockCount() ==> kiPos + count < |v.lower|;
      forall p: nat | kiPos <= p < kiPos + count ensures SameByte(v.lower, avail, p) {
        assert p < |flat| ==> ByteAgrees(v, flat, p);
      }
      SameRead(v.lower, avail, kiPos, count);
    } else {
      assert limit == |flat| || kiPos + count <= limit;
      forall p: nat | kiPos <= p < kiPos + count ensures SameByte(avail, v.upper, p) {
        assert p < |flat| ==> ByteAgrees(v, flat, p);
      }
      SameRead(avail, v.upper, kiPos, count);
    }
  }

  /** Where the read loop stands when a pass begins: everything before kiPos has been read. */
  ghost predicate Progress(v: View, flat: seq<byte>, pos: nat, count: nat, data: seq<byte>, kiPos: nat, left: int, lowerEnd: bool) {
    && Agrees(v, flat) && v.cow
    && 0 <= left == count - |data| && kiPos == pos + |data|
    && data == ReadAt(flat[..ReadLimit(v, flat, pos)], pos, |data|)
    && (lowerEnd ==> kiPos >= ReadLimit(v, flat, pos) && v.Uncopied(GetBlock(kiPos)))
  }

  /** Above the last lower block, one read of the upper file ends the loop. */
  lemma TailPass(v: View, flat: seq<byte>, pos: nat, count: nat, data: seq<byte>, kiPos: nat, left: nat, lowerEnd: bool)
    requires Progress(v, flat, pos, count, data, kiPos, left, lowerEnd) && left > 0 && GetBlock(kiPos) > v.BlockCount()
    ensures !Hangs(v, flat, pos, count)
    ensures data + ReadAt(v.upper, kiPos, left) == ReadResult(v, flat, pos, count)
  {
    AboveBlocks(v, flat, pos, count, data, kiPos);
    ChunkAgrees(v, flat, pos, kiPos, left);
    ReadAtConcat(flat[..ReadLimit(v, flat, pos)], pos, |data|, left);
  }

  lemma AboveBlocks(v: View, flat: seq<byte>, pos: nat, count: nat, data: seq<byte>, kiPos: nat)
    requires Agrees(v, flat) && kiPos == pos + |data| && GetBlock(kiPos) > v.BlockCount()
    requires data == ReadAt(flat[..ReadLimit(v, flat, pos)], pos, |data|)
    ensures !Hangs(v, flat, pos, count)
    ensures kiPos == pos || kiPos <= ReadLimit(v, flat, pos)
  {
  }

  /** The other two ways out: nothing left to read, or the lower file's end in an uncopied block. */
  lemma Finished(v: View, flat: seq<byte>, pos: nat, count: nat, data: seq<byte>, kiPos: nat, left: nat, lowerEnd: bool)
    requires Progress(v, flat, pos, count, data, kiPos, left, lowerEnd) && (left == 0 || lowerEnd)
    ensures !Hangs(v, flat, pos, count)
    ensures data == ReadResult(v, flat, pos, count)
  {
    ReadAtPastEnd(flat[..ReadLimit(v, flat, pos)], pos, |data|, count);
  }

  /** The inner loops of block_read_iter: read one real file until the piece is complete or a read
      returns 0. */
  method Drain(src: seq<byte>, kiPos: nat, cCount: nat) returns (data: seq<byte>, eof: bool)
    ensures data == ReadAt(src, kiPos, cCount)
    ensures eof <==> |data| < cCount
  {
    data, eof := [], false;
    while |data| < cCount
      invariant data == ReadAt(src, kiPos, |data|) && |data| <= cCount
    {
      var chunk := ReadAt(src, kiPos + |data|, cCount - |data|);
      if chunk == [] {
        eof := true;
        break;
      }
      data := data + chunk;
    }
  }

  /** One pass of the loop of block_read_iter in a block that has a status entry, from the real file that
      the entry selects. */
  method ReadPiece(ghost v: View, ghost flat: seq<byte>, ghost pos: nat, ghost count: nat, ghost data: seq<byte>,
                   kiPos: nat, left: nat, lowerEnd: bool, copied: bool, src: seq<byte>)
    returns (chunk: seq<byte>, eof: bool)
    requires Progress(v, flat, pos, count, data, kiPos, left, lowerEnd) && left > 0
    requires GetBlock(kiPos) <= v.BlockCount() && (copied <==> !v.Uncopied(GetBlock(kiPos)))
    requires src == (if copied then v.upper else v.lower) && (copied || !lowerEnd)
    ensures Progress(v, flat, pos, count, data + chunk, kiPos + |chunk|, left - |chunk|, eof)
    ensures eof == lowerEnd || (eof && !lowerEnd)
    ensures chunk == [] && eof == lowerEnd ==> Hangs(v, flat, pos, count)
  {
    var startBlock, endBlock := GetBlock(kiPos), GetBlock(kiPos + left);
    var cCount := if startBlock == endBlock then left else startBlock * BLOCK_SIZE - kiPos;
    var short;
    chunk, short := Drain(src, kiPos, cCount);
    eof := if copied then lowerEnd else short;
    if copied {
      CopiedPiece(v, flat, pos, count, data, kiPos, left, lowerEnd, cCount);
      if chunk == [] {
        StuckPiece(v, flat, pos, count, data, kiPos, left, cCount);
      }
    } else {
      UncopiedPiece(v, flat, pos, count, data, kiPos, left, cCount);
    }
  }

  lemma MoreProgress(v: View, flat: seq<byte>, pos: nat, count: nat, data: seq<byte>, kiPos: nat, left: nat, cCount: nat, chunk: seq<byte>)
    requires Progress(v, flat, pos, count, data, kiPos, left, false) && cCount <= left
    requires chunk == ReadAt(flat[..ReadLimit(v, flat, pos)], kiPos, cCount)
    ensures Progress(v, flat, pos, count, data + chunk, kiPos + |chunk|, left - |chunk|, false)
    ensures |chunk| < cCount ==> kiPos + |chunk| >= ReadLimit(v, flat, pos)
  {
    ReadAtConcat(flat[..ReadLimit(v, flat, pos)], pos, |data|, cCount);
  }

  /** A piece within one block, from the real file that the status entry selects. */
  lemma SelectedPiece(v: View, flat: seq<byte>, pos: nat, count: nat, data: seq<byte>, kiPos: nat, left: nat, cCount: nat, chunk: seq<byte>)
    requires Progress(v, flat, pos, count, data, kiPos, left, false)
    requires 0 < cCount <= left && kiPos + cCount <= GetBlock(kiPos) * BLOCK_SIZE
    requires chunk == ReadAt(if v.Uncopied(GetBlock(kiPos)) then v.lower else v.upper, kiPos, cCount)
    ensures Progress(v, flat, pos, count, data + chunk, kiPos + |chunk|, left - |chunk|, false)
    ensures |chunk| < cCount ==> kiPos + |chunk| >= ReadLimit(v, flat, pos) && GetBlock(kiPos + |chunk|) == GetBlock(kiPos)
  {
    ChunkAgrees(v, flat, pos, kiPos, cCount);
    MoreProgress(v, flat, pos, count, data, kiPos, left, cCount, chunk);
    if |chunk| < cCount {
      SameBlock(kiPos, |chunk|);
    }
  }

  lemma UncopiedPiece(v: View, flat: seq<byte>, pos: nat, count: nat, data: seq<byte>, kiPos: nat, left: nat, cCount: nat)
    requires Progress(v, flat, pos, count, data, kiPos, left, false) && v.Uncopied(GetBlock(kiPos))
    requires 0 < cCount <= left && kiPos + cCount <= GetBlock(kiPos) * BLOCK_SIZE
    ensures var chunk := ReadAt(v.lower, kiPos, cCount);
      Progress(v, flat, pos, count, data + chunk, kiPos + |chunk|, left - |chunk|, |chunk| < cCount)
  {
    var chunk := ReadAt(v.lower, kiPos, cCount);
    SelectedPiece(v, flat, pos, count, data, kiPos, left, cCount, chunk);
    if |chunk| < cCount {
      LowerEnded(v, flat, pos, count, data + chunk, kiPos + |chunk|, left - |chunk|);
    }
  }

  lemma LowerEnded(v: View, flat: seq<byte>, pos: nat, count: nat, data: seq<byte>, kiPos: nat, left: int)
    requires Progress(v, flat, pos, count, data, kiPos, left, false)
    requires kiPos >= ReadLimit(v, flat, pos) && v.Uncopied(GetBlock(kiPos))
    ensures Progress(v, flat, pos, count, data, kiPos, left, true)
  {
  }

  lemma SameBlock(pos: nat, n: nat)
    requires pos + n < GetBlock(pos) * BLOCK_SIZE
    ensures GetBlock(pos + n) == GetBlock(pos)
  {
  }

  lemma CopiedPiece(v: View, flat: seq<byte>, pos: nat, count: nat, data: seq<byte>, kiPos: nat, left: nat, lowerEnd: bool, cCount: nat)
    requires Progress(v, flat, pos, count, data, kiPos, left, lowerEnd) && !v.Uncopied(GetBlock(kiPos))
    requires 0 < cCount <= left && kiPos + cCount <= GetBlock(kiPos) * BLOCK_SIZE
    ensures !lowerEnd
    ensures var chunk := ReadAt(v.upper, kiPos, cCount);
      Progress(v, flat, pos, count, data + chunk, kiPos + |chunk|, left - |chunk|, false)
  {
    SelectedPiece(v, flat, pos, count, data, kiPos, left, cCount, ReadAt(v.upper, kiPos, cCount));
  }

  /** A pass in a copied block that finds no byte can never make progress. */
  lemma StuckPiece(v: View, flat: seq<byte>, pos: nat, count: nat, data: seq<byte>, kiPos: nat, left: nat, cCount: nat)
    requires Progress(v, flat, pos, count, data, kiPos, left, false) && !v.Uncopied(GetBlock(kiPos))
    requires 0 < cCount <= left && kiPos + cCount <= GetBlock(kiPos) * BLOCK_SIZE && GetBlock(kiPos) <= v.BlockCount()
    requires ReadAt(v.upper, kiPos, cCount) == []
    ensures Hangs(v, flat, pos, count)
  {
    ChunkAgrees(v, flat, pos, kiPos, cCount);
    assert kiPos >= ReadLimit(v, flat, pos);
  }

  // ---------- the inode and the code ----------

  /** The first k of len bytes from pos on have been copied from the lower file into the upper one. */
  ghost predicate CopiedPrefix(u: seq<byte>, u': seq<byte>, lower: seq<byte>, pos: nat, len: nat, k: nat) {
    k <= len && pos + len <= |lower| && u' == WriteAt(u, pos, lower[pos..pos + k])
  }

  lemma CopiedPrefixMore(u: seq<byte>, u': seq<byte>, lower: seq<byte>, pos: nat, len: nat, k: nat, bytes: nat)
    requires CopiedPrefix(u, u', lower, pos, len, k) && k + bytes <= len
    ensures CopiedPrefix(u, WriteAt(u', pos + k, lower[pos + k..pos + k + bytes]), lower, pos, len, k + bytes)
  {
    WriteAtConcat(u, pos, lower[pos..pos + k], lower[pos + k..pos + k + bytes]);
    assert lower[pos..pos + k] + lower[pos + k..pos + k + bytes] == lower[pos..pos + k + bytes];
  }

  lemma EdgeCopyStart(v: View)
    ensures EdgeCopied(v, v.upper)
  {
    forall p | 0 <= p < |v.upper| ensures EdgeByte(v, v.upper, p) {
    }
  }

  /** The bytes [from, from + k) of the uncopied block b have been copied. */
  ghost predicate EdgePiece(v: View, u: seq<byte>, u': seq<byte>, b: nat, k: nat) {
    && |v.status| == BlockCountFor(|v.lower|) + 1
    && v.Uncopied(b)
    && var from := (b - 1) * BLOCK_SIZE;
    CopiedPrefix(u, u', v.lower, from, Min(BLOCK_SIZE, |v.lower| - from), k)
  }

  lemma EdgePieceIsEdgeCopy(v: View, u: seq<byte>, u': seq<byte>, b: nat, k: nat)
    requires EdgeCopied(v, u) && EdgePiece(v, u, u', b, k)
    ensures EdgeCopied(v, u')
  {
    forall p | 0 <= p < |u'| ensures EdgeByte(v, u', p) {
      if p < |u| {
        assert EdgeByte(v, u, p);
      }
      var from := (b - 1) * BLOCK_SIZE;
      if from <= p < from + k {
        assert GetBlock(p) == b;
      }
    }
  }

  lemma EdgePieceCompletes(v: View, u: seq<byte>, u': seq<byte>, b: nat)
    requires |v.status| == BlockCountFor(|v.lower|) + 1 && v.Uncopied(b)
    requires EdgePiece(v, u, u', b, Min(BLOCK_SIZE, |v.lower| - (b - 1) * BLOCK_SIZE))
    ensures BlockComplete(v, u', b)
  {
  }

  lemma EdgePieceKeepsComplete(v: View, u: seq<byte>, u': seq<byte>, b: nat, k: nat, c: nat)
    requires EdgePiece(v, u, u', b, k) && BlockComplete(v, u, c)
    ensures BlockComplete(v, u', c)
  {
    if v.Uncopied(c) {
      forall p: nat | (c - 1) * BLOCK_SIZE <= p < Min(c * BLOCK_SIZE, |v.lower|)
        ensures ByteCopied(v, u', p)
      {
        assert ByteCopied(v, u, p);
      }
    }
  }

  /** What do_splice_direct may return: some bytes, or an error if the copy is to fail. */
  method SpliceDirect(thisLen: nat, left: nat, fails: bool) returns (bytes: int)
    requires 0 < thisLen <= left
    ensures bytes != 0 && bytes <= thisLen && (if fails then bytes < left else bytes > 0)
  {
    assert SplicedBytes(if fails then -1 else 1, thisLen, left, fails);
    bytes :| SplicedBytes(bytes, thisLen, left, fails);
    assert SplicedBytes(bytes, thisLen, left, fails);
  }

  predicate SplicedBytes(bytes: int, thisLen: nat, left: nat, fails: bool) {
    bytes != 0 && bytes <= thisLen && (if fails then bytes < left else bytes > 0)
  }

  /** The edge blocks a write needs are among its first and its last block. */
  lemma NeededBlocks(v: View, c: WriteCall, failing: set<int>)
    requires |v.status| > 0
    ensures var first, last := FirstBlock(v, c), LastBlock(v, c);
      NeededCopies(v, c) * failing != {} <==>
        || (v.Uncopied(first) && first in failing && (c.append || c.pos > (first - 1) * BLOCK_SIZE))
        || (v.Uncopied(last) && last in failing)
  {
    var first, last, needed := FirstBlock(v, c), LastBlock(v, c), NeededCopies(v, c) * failing;
    assert last in needed <==> v.Uncopied(last) && last in failing;
    assert first != last ==> (first in needed <==> v.Uncopied(first) && first in failing && c.pos > (first - 1) * BLOCK_SIZE);
    assert forall b | b in needed :: b == first || b == last;
  }

  class OvlInode {
    const lower: seq<byte>
    var upper: seq<byte>
    var blockCount: nat
    var copyCount: nat
    var cowStatus: bool
    var blockStatus: array<bool>
    ghost var flat: seq<byte>

    ghost function AsView(): View
      reads this, blockStatus
    {
      View(lower, upper, blockStatus[..], copyCount, cowStatus)
    }

    ghost predicate Valid()
      reads this, blockStatus
    {
      && Agrees(AsView(), flat)
      && (cowStatus ==> blockStatus.Length == blockCount + 1)
    }

    /** ovl_copy_up_inode for a regular file without metacopy; O_TRUNC sets the size to 0. */
    constructor CopyUpInode(data: seq<byte>, truncate: bool)
      ensures Valid() && fresh(blockStatus)
      ensures lower == data && flat == if truncate then [] else data
      ensures AsView() == CopiedUp(data, if truncate then 0 else |data|)
    {
      var size := if truncate then 0 else |data|;
      lower := data;
      upper := [];
      copyCount := 0;
      cowStatus := false;
      var n := size / BLOCK_SIZE;
      if size != 0 {
        cowStatus := true;
        n := if size % BLOCK_SIZE != 0 then n + 1 else n;
      }
      blockCount := n;
      blockStatus := new bool[n + 1](_ => false);
      flat := if truncate then [] else data;
      new;
      CopyUpAgrees(data, truncate);
      assert AsView().status == CopiedUp(data, size).status;
    }

    /** ovl_copy_up_block: one clone, or spliced chunks. A failure leaves a prefix copied. */
    method CopyUpBlock(pos: nat, len: nat, fails: bool) returns (error: int, ghost copied: nat)
      requires pos + len <= |lower|
      modifies this`upper
      ensures error <= 0 && (error < 0 <==> fails && len > 0)
      ensures CopiedPrefix(old(upper), upper, lower, pos, len, copied)
      ensures error == 0 ==> copied == len
    {
      error, copied := 0, 0;
      assert CopiedPrefix(upper, upper, lower, pos, len, 0);
      if len == 0 {
        return;
      }
      var cloned: bool := *;
      if cloned && !fails {
        upper := WriteAt(upper, pos, lower[pos..pos + len]);
        copied := len;
        return;
      }
      error, copied := SpliceChunks(pos, len, fails);
    }

    /** The copy loop of ovl_copy_up_block. */
    method SpliceChunks(pos: nat, len: nat, fails: bool) returns (error: int, ghost copied: nat)
      requires pos + len <= |lower|
      modifies this`upper
      ensures error <= 0 && (error < 0 <==> fails && len > 0)
      ensures CopiedPrefix(old(upper), upper, lower, pos, len, copied)
      ensures error == 0 ==> copied == len
    {
      error, copied := 0, 0;
      assert CopiedPrefix(upper, upper, lower, pos, len, 0);
      var oldPos, newPos, left := pos, pos, len;
      while left > 0
        invariant 0 <= left <= len && (left == 0 ==> len == 0 || !fails)
        invariant copied == len - left && oldPos == newPos == pos + copied
        invariant CopiedPrefix(old(upper), upper, lower, pos, len, copied)
      {
        var thisLen := OVL_COPY_UP_CHUNK_SIZE;
        if left < thisLen {
          thisLen := left;
        }
        var interrupted: bool := *;
        if interrupted && fails {
          error := -4;
          break;
        }
        var bytes := SpliceDirect(thisLen, left, fails);
        if bytes <= 0 {
          error := bytes;
          break;
        }
        CopiedPrefixMore(old(upper), upper, lower, pos, len, copied, bytes);
        upper := WriteAt(upper, newPos, lower[oldPos..oldPos + bytes]);
        oldPos, newPos, left := oldPos + bytes, newPos + bytes, left - bytes;
        copied := copied + bytes;
      }
    }

    /** Copies up the uncopied block b, which holds lower bytes. */
    method CopyUpEdge(b: nat, fails: bool, ghost v: View) returns (ret: int)
      requires |v.status| == BlockCountFor(|lower|) + 1 && v.lower == lower && v.Uncopied(b)
      requires EdgeCopied(v, upper)
      modifies this`upper
      ensures ret <= 0 && (ret < 0 <==> fails) && EdgeCopied(v, upper)
      ensures ret == 0 ==> BlockComplete(v, upper, b)
      ensures forall c: nat :: BlockComplete(v, old(upper), c) ==> BlockComplete(v, upper, c)
    {
      var from := (b - 1) * BLOCK_SIZE;
      ghost var k;
      ret, k := CopyUpBlock(from, if |lower| - from < BLOCK_SIZE then |lower| - from else BLOCK_SIZE, fails);
      EdgePieceIsEdgeCopy(v, old(upper), upper, b, k);
      if ret == 0 {
        EdgePieceCompletes(v, old(upper), upper, b);
      }
      forall c: nat | BlockComplete(v, old(upper), c) ensures BlockComplete(v, upper, c) {
        EdgePieceKeepsComplete(v, old(upper), upper, b, k, c);
      }
    }

    /** The first half of block_write_iter: copy up the partly covered edge blocks. The status array has
        no entry above blockCount, so the two tests of it are guarded here. */
    method CopyUpEdges(pos: nat, data: seq<byte>, append: bool, failing: set<int>) returns (ret: int, startBlock: nat, endBlock: nat)
      requires Valid() && cowStatus
      modifies this`upper
      ensures ret <= 0 && EdgeCopied(old(AsView()), upper)
      ensures ret < 0 <==> NeededCopies(old(AsView()), WriteCall(pos, data, append)) * failing != {}
      ensures var v, c := old(AsView()), WriteCall(pos, data, append);
        ret == 0 ==>
          && startBlock == FirstBlock(v, c) && endBlock == LastBlock(v, c)
          && (append || pos > (startBlock - 1) * BLOCK_SIZE ==> BlockComplete(v, upper, startBlock))
          && BlockComplete(v, upper, endBlock)
    {
      ghost var v := AsView();
      EdgeCopyStart(v);
      NeededBlocks(v, WriteCall(pos, data, append), failing);
      startBlock, endBlock := GetBlock(pos), GetBlock(pos + |data|);
      ret := 0;
      if append {
        if !blockStatus[blockCount] {
          ret := CopyUpEdge(blockCount, blockCount in failing, v);
        }
        endBlock := blockCount;
        startBlock := endBlock;
        return;
      }
      var partial := false;
      if pos > (startBlock - 1) * BLOCK_SIZE && startBlock <= blockCount && !blockStatus[startBlock] {
        partial := true;
        ret := CopyUpEdge(startBlock, startBlock in failing, v);
        if ret < 0 {
          return;
        }
      }
      if endBlock * BLOCK_SIZE > pos + |data| && endBlock <= blockCount && !blockStatus[endBlock] {
        if !(partial && endBlock == startBlock) {
          ret := CopyUpEdge(endBlock, endBlock in failing, v);
        }
      }
    }

    /** The marking loop of block_write_iter. */
    method MarkBlocks(startBlock: nat, endBlock: nat)
      requires 0 < startBlock <= endBlock && blockStatus.Length == blockCount + 1
      requires copyCount == Copied(blockStatus[..])
      modifies blockStatus, this`copyCount
      ensures blockStatus[..] == Mark(old(blockStatus[..]), startBlock, endBlock)
      ensures copyCount == Copied(blockStatus[..])
    {
      var i := startBlock;
      while i <= endBlock
        invariant startBlock <= i <= endBlock + 1
        invariant blockStatus[..] == Mark(old(blockStatus[..]), startBlock, i - 1)
        invariant copyCount == Copied(blockStatus[..])
      {
        if i > blockCount {
          break;
        }
        if !blockStatus[i] {
          CountSetUpdate(blockStatus[..][1..], i - 1);
          assert blockStatus[..][i := true][1..] == blockStatus[..][1..][i - 1 := true];
          blockStatus[i] := true;
          copyCount := copyCount + 1;
        }
        i := i + 1;
      }
    }

    /** block_write_iter. */
    method BlockWriteIter(pos: nat, data: seq<byte>, append: bool, failing: set<int>) returns (ret: int)
      requires Valid() && cowStatus && data != []
      modifies this, blockStatus
      ensures Valid() && blockStatus == old(blockStatus)
      ensures if NeededCopies(old(AsView()), WriteCall(pos, data, append)) * failing != {} then ret < 0 else ret == |data|
      ensures flat == FlatWrite(old(flat), WriteCall(pos, data, append), ret >= 0)
      ensures WriteStep(old(AsView()), WriteCall(pos, data, append), ret >= 0, AsView())
    {
      ghost var v, call := AsView(), WriteCall(pos, data, append);
      var startBlock, endBlock;
      ret, startBlock, endBlock := CopyUpEdges(pos, data, append, failing);
      ghost var u := upper;
      if ret < 0 {
        assert AsView() == v.(upper := u);
        assert WriteAfterEdges(v, call, false, u, AsView());
        WriteRefines(v, call, false, AsView(), flat);
        return;
      }
      WriteAndMark(pos, data, append, startBlock, endBlock);
      ret := |data|;
      assert WriteAfterEdges(v, call, true, u, AsView());
      WriteRefines(v, call, true, AsView(), flat);
      flat := FlatWrite(flat, call, true);
    }

    /** The second half of block_write_iter: write the real file, mark the blocks, notice the last one. */
    method WriteAndMark(pos: nat, data: seq<byte>, append: bool, startBlock: nat, endBlock: nat)
      requires 0 < startBlock <= endBlock && blockStatus.Length == blockCount + 1 && cowStatus
      requires copyCount == Copied(blockStatus[..])
      modifies this`upper, this`copyCount, this`cowStatus, blockStatus
      ensures upper == WriteAt(old(upper), if append then |old(upper)| else pos, data)
      ensures blockStatus[..] == Mark(old(blockStatus[..]), startBlock, endBlock)
      ensures copyCount == Copied(blockStatus[..]) && cowStatus == (copyCount != blockCount)
    {
      upper := WriteAt(upper, if append then |upper| else pos, data);
      MarkBlocks(startBlock, endBlock);
      if copyCount == blockCount {
        cowStatus := false;
      }
    }

    /** ovl_write_iter: once cow_status is cleared, writes go straight to the upper file. */
    method WriteIter(pos: nat, data: seq<byte>, append: bool, failing: set<int>) returns (ret: int)
      requires Valid()
      modifies this, blockStatus
      ensures Valid() && blockStatus == old(blockStatus)
      ensures if data != [] && old(cowStatus) && NeededCopies(old(AsView()), WriteCall(pos, data, append)) * failing != {}
              then ret < 0 else ret == |data|
      ensures data == [] || ret < 0 ==> flat == old(flat)
      ensures data != [] && ret >= 0 ==> flat == WriteAt(old(flat), if append then |old(flat)| else pos, data)
      ensures data != [] ==> WriteStep(old(AsView()), WriteCall(pos, data, append), ret >= 0, AsView())
    {
      if data == [] {
        return 0;
      }
      if cowStatus {
        ret := BlockWriteIter(pos, data, append, failing);
      } else {
        upper := WriteAt(upper, if append then |upper| else pos, data);
        flat := upper;
        ret := |data|;
      }
    }

    /** block_read_iter. A pass of the outer loop that changes nothing is repeated for ever; `hung`
        reports it. */
    method BlockReadIter(pos: nat, count: nat) returns (data: seq<byte>, newPos: nat, hung: bool)
      requires Valid() && cowStatus && count > 0
      ensures hung <==> Hangs(AsView(), flat, pos, count)
      ensures !hung ==> data == ReadResult(AsView(), flat, pos, count) && newPos == pos + |data|
    {
      ghost var v, f := AsView(), flat;
      var left, lowerEnd := count, false;
      data, newPos, hung := [], pos, false;
      while left > 0
        invariant AsView() == v && flat == f
        invariant Progress(v, f, pos, count, data, newPos, left, lowerEnd)
        decreases left, !lowerEnd
      {
        var startBlock := GetBlock(newPos);
        if startBlock > blockCount {
          var chunk := ReadAt(upper, newPos, left);
          TailPass(v, f, pos, count, data, newPos, left, lowerEnd);
          data, newPos := data + chunk, newPos + |chunk|;
          return;
        }
        var copied := blockStatus[startBlock];
        if !copied && lowerEnd {
          break;
        }
        var chunk, eof := ReadPiece(v, f, pos, count, data, newPos, left, lowerEnd, copied, if copied then upper else lower);
        if chunk == [] && eof == lowerEnd {
          hung := true;
          return;
        }
        data, newPos, left, lowerEnd := data + chunk, newPos + |chunk|, left - |chunk|, eof;
      }
      Finished(v, f, pos, count, data, newPos, left, lowerEnd);
    }

    /** ovl_read_iter. */
    method ReadIter(pos: nat, count: nat) returns (data: seq<byte>, newPos: nat, hung: bool)
      requires Valid()
      ensures hung <==> Hangs(AsView(), flat, pos, count)
      ensures !hung ==> data == ReadResult(AsView(), flat, pos, count) && newPos == pos + |data|
      ensures pos + count <= |flat| && !Torn(AsView(), flat) ==> !hung && data == flat[pos..pos + count]
    {
      if count == 0 {
        return [], pos, false;
      }
      if cowStatus {
        data, newPos, hung := BlockReadIter(pos, count);
      } else {
        data, hung := ReadAt(upper, pos, count), false;
        newPos := pos + |data|;
      }
      if pos + count <= |flat| && count > 0 {
        InRangeReadExact(AsView(), flat, pos, count);
      }
    }
  }
}
