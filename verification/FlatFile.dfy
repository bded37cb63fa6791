/** What read, pwrite and append mean for one flat file. The block layer is proved to behave like this. */
module FlatFile {

  type byte = x: int | 0 <= x < 256

  function Min(a: int, b: int): int {
    if a < b then a else b
  }

  function Max(a: int, b: int): int {
    if a < b then b else a
  }

  /** The byte at offset p; a hole, or anything past the end, holds zero. */
  function At(f: seq<byte>, p: nat): byte {
    if p < |f| then f[p] else 0
  }

  /** pwrite: a gap between the end of the file and pos is filled with zeros. */
  function WriteAt(f: seq<byte>, pos: nat, data: seq<byte>): (r: seq<byte>)
    ensures data == [] ==> r == f
    ensures data != [] ==> |r| == Max(|f|, pos + |data|)
    ensures forall p | 0 <= p < |r| :: r[p] == if pos <= p < pos + |data| then data[p - pos] else At(f, p)
  {
    if data == [] then
      f
    else
      seq(Max(|f|, pos + |data|), i requires 0 <= i => if pos <= i < pos + |data| then data[i - pos] else At(f, i))
  }

  /** pread: as many of the wanted bytes as there are before the end of the file. */
  function ReadAt(f: seq<byte>, pos: nat, count: nat): (r: seq<byte>)
    ensures |r| == if pos < |f| then Min(count, |f| - pos) else 0
    ensures forall k | 0 <= k < |r| :: r[k] == f[pos + k]
  {
    if pos >= |f| then [] else f[pos..Min(pos + count, |f|)]
  }

  /** Writing a block in two adjacent pieces is writing it whole. */
  lemma WriteAtConcat(f: seq<byte>, pos: nat, a: seq<byte>, b: seq<byte>)
    ensures WriteAt(WriteAt(f, pos, a), pos + |a|, b) == WriteAt(f, pos, a + b)
  {
    if a == [] {
      assert a + b == b;
    } else if b == [] {
      assert a + b == a;
    } else {
      var l, r := WriteAt(WriteAt(f, pos, a), pos + |a|, b), WriteAt(f, pos, a + b);
      assert |l| == |r|;
      assert forall p | 0 <= p < |l| :: l[p] == r[p];
    }
  }

  lemma ReadAtConcat(f: seq<byte>, pos: nat, done: nat, more: nat)
    requires |ReadAt(f, pos, done)| == done
    ensures var chunk := ReadAt(f, pos + done, more);
      && ReadAt(f, pos, done) + chunk == ReadAt(f, pos, done + more)
      && ReadAt(f, pos, done) + chunk == ReadAt(f, pos, done + |chunk|)
  {
  }

  lemma ReadAtPastEnd(f: seq<byte>, pos: nat, done: nat, count: nat)
    requires done <= count && (done == count || pos + done >= |f|)
    ensures ReadAt(f, pos, done) == ReadAt(f, pos, count)
  {
  }
}
