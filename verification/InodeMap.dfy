/** Filesystem ids of the layers, and the mapping of real inode numbers into one 64-bit space. */
module InodeMap {
  import opened Paths

  const OVL_MAX_STACK: nat := 500
  const BITS_PER_LONG: nat := 64

  function Pow2(n: nat): (r: nat)
    ensures r > 0
  {
    if n == 0 then 1 else 2 * Pow2(n - 1)
  }

  /** Bitwise or. */
  function Or(a: nat, b: nat): nat {
    if a == 0 && b == 0 then 0 else (if a % 2 == 1 || b % 2 == 1 then 1 else 0) + 2 * Or(a / 2, b / 2)
  }

  function ShiftRight(a: nat, n: nat): nat {
    if n == 0 then a else ShiftRight(a / 2, n - 1)
  }

  lemma {:induction false} ShiftedOut(a: nat, n: nat)
    ensures ShiftRight(a, n) == 0 <==> a < Pow2(n)
  {
    if n > 0 {
      ShiftedOut(a / 2, n - 1);
    }
  }

  /** Shift in 64 bits. */
  function ShiftLeft(a: nat, n: nat): nat {
    a * Pow2(n) % Pow2(64)
  }

  function Ilog2(n: nat): nat
    requires n > 0
  {
    if n == 1 then 0 else 1 + Ilog2(n / 2)
  }

  lemma {:induction false} Ilog2Bound(n: nat)
    requires n > 0
    ensures Pow2(Ilog2(n)) <= n < Pow2(Ilog2(n) + 1)
  {
    if n > 1 {
      Ilog2Bound(n / 2);
    }
  }

  lemma {:induction false} Pow2Monotone(a: nat, b: nat)
    requires a <= b
    ensures Pow2(a) <= Pow2(b)
  {
    if a < b {
      Pow2Monotone(a, b - 1);
    }
  }

  lemma {:induction false} Pow2Add(a: nat, b: nat)
    ensures Pow2(a + b) == Pow2(a) * Pow2(b)
  {
    if a > 0 {
      Pow2Add(a - 1, b);
      assert Pow2(a) * Pow2(b) == 2 * (Pow2(a - 1) * Pow2(b));
    }
  }

  /** With no bits in common, or is addition. */
  lemma {:induction false} OrDisjoint(low: nat, high: nat, n: nat)
    requires low < Pow2(n)
    ensures Or(low, high * Pow2(n)) == low + high * Pow2(n)
  {
    if n == 0 {
      OrZero(high);
    } else {
      var m := high * Pow2(n - 1);
      assert high * Pow2(n) == 2 * m;
      OrDisjoint(low / 2, high, n - 1);
      assert (2 * m) / 2 == m && (2 * m) % 2 == 0;
    }
  }

  lemma {:induction false} OrZero(a: nat)
    ensures Or(0, a) == a
  {
    if a > 0 {
      OrZero(a / 2);
    }
  }

  // ---------- filesystem ids ----------

  datatype Xino = Off | Auto | On

  class OvlFs {
    const upperSb: Option<nat>
    var xino: Xino
    var xinoBits: nat
    var lowerFs: seq<nat>
    /** The superblock and the fsid of each lower layer. */
    var layers: seq<(nat, nat)>

    constructor (upperSb: Option<nat>, xino: Xino, xinoBits: nat)
      ensures this.upperSb == upperSb && this.xino == xino && this.xinoBits == xinoBits && lowerFs == [] && layers == []
    {
      this.upperSb, this.xino, this.xinoBits := upperSb, xino, xinoBits;
      lowerFs, layers := [], [];
    }

    /** Every filesystem is kept once, and the upper one not at all. */
    ghost predicate Valid()
      reads this
    {
      && (forall i, j | 0 <= i < j < |lowerFs| :: lowerFs[i] != lowerFs[j])
      && (forall i | 0 <= i < |lowerFs| :: upperSb != Some(lowerFs[i]))
      && forall i | 0 <= i < |layers| :: IdOf(layers[i].0, layers[i].1)
    }

    ghost predicate IdOf(sb: nat, fsid: nat)
      reads this
    {
      if fsid == 0 then upperSb == Some(sb) else fsid <= |lowerFs| && lowerFs[fsid - 1] == sb
    }

    /** ovl_get_fsid */
    method GetFsid(sb: nat) returns (fsid: nat)
      requires Valid()
      modifies this`lowerFs
      ensures Valid() && IdOf(sb, fsid)
      ensures lowerFs == old(lowerFs) + if upperSb == Some(sb) || sb in old(lowerFs) then [] else [sb]
    {
      // a lower layer may be on the upper filesystem and then shares its id
      if upperSb == Some(sb) {
        return 0;
      }
      var i := 0;
      while i < |lowerFs|
        invariant 0 <= i <= |lowerFs|
        invariant forall k | 0 <= k < i :: lowerFs[k] != sb
      {
        if lowerFs[i] == sb {
          return i + 1;
        }
        i := i + 1;
      }
      lowerFs := lowerFs + [sb];
      fsid := |lowerFs|;
    }

    /** ovl_get_lower_layers. The number of bits may have been preset to 32. */
    method GetLowerLayers(stack: seq<nat>)
      requires Valid() && lowerFs == [] && layers == [] && 0 < |stack| <= OVL_MAX_STACK
      requires xinoBits == 0 || (xinoBits == BITS_PER_LONG - 32 && !xino.Off?)
      modifies this
      ensures Valid() && |layers| == |stack|
      ensures forall i | 0 <= i < |stack| :: layers[i].0 == stack[i]
      ensures forall sb :: sb in lowerFs <==> sb in stack && upperSb != Some(sb)
      ensures Settings().Ok()
      ensures BitsChosen(old(xino), old(xinoBits))
    {
      GetLayers(stack);
      SetXinoBits();
    }

    /** The loop over the layers. */
    method GetLayers(stack: seq<nat>)
      requires Valid() && lowerFs == [] && layers == []
      modifies this`lowerFs, this`layers
      ensures Valid() && |layers| == |stack| && |lowerFs| <= |stack|
      ensures forall i | 0 <= i < |stack| :: layers[i].0 == stack[i]
      ensures forall sb :: sb in lowerFs <==> sb in stack && upperSb != Some(sb)
    {
      var i := 0;
      while i < |stack|
        invariant 0 <= i <= |stack| && Valid() && |layers| == i && |lowerFs| <= i
        invariant forall k | 0 <= k < i :: layers[k].0 == stack[k]
        invariant forall sb :: sb in lowerFs <==> sb in stack[..i] && upperSb != Some(sb)
      {
        assert stack[..i + 1] == stack[..i] + [stack[i]];
        var fsid := GetFsid(stack[i]);
        layers := layers + [(stack[i], fsid)];
        i := i + 1;
      }
      assert stack[..i] == stack;
    }

    /** On one filesystem xino is off. Otherwise preset bits are kept, auto takes no others, and on takes the fewest that
        hold every fsid. */
    ghost predicate BitsChosen(wanted: Xino, preset: nat)
      reads this
    {
      if SameFs() then xino.Off? && xinoBits == 0
      else
        && xino == wanted
        && (preset > 0 || !wanted.On? ==> xinoBits == preset)
        && (preset == 0 && wanted.On? ==> xinoBits > 0 && Pow2(xinoBits - 1) <= |lowerFs| < Pow2(xinoBits))
    }

    /** How many high bits fsids take. */
    method SetXinoBits()
      requires |lowerFs| <= OVL_MAX_STACK
      requires xinoBits == 0 || (xinoBits == BITS_PER_LONG - 32 && !xino.Off?)
      modifies this`xino, this`xinoBits
      ensures Settings().Ok()
      ensures BitsChosen(old(xino), old(xinoBits))
    {
      EnoughBits(|lowerFs|);
      if |lowerFs| == 0 || (|lowerFs| == 1 && upperSb.None?) {
        xinoBits, xino := 0, Off;
      } else if xino == On && xinoBits == 0 {
        xinoBits := Ilog2(|lowerFs|) + 1;
      }
    }

    /** ovl_same_sb */
    predicate SameFs()
      reads this
    {
      |lowerFs| == 0 || (|lowerFs| == 1 && upperSb.None?)
    }

    function Settings(): Config
      reads this
    {
      Config(SameFs(), xinoBits, |lowerFs|)
    }
  }

  lemma EnoughBits(n: nat)
    requires n <= OVL_MAX_STACK
    ensures n < Pow2(BITS_PER_LONG - 32)
    ensures n > 0 ==> Pow2(Ilog2(n)) <= n < Pow2(Ilog2(n) + 1) && Ilog2(n) + 1 <= 9
  {
    assert Pow2(9) == 512;
    Pow2Monotone(9, BITS_PER_LONG - 32);
    if n > 0 {
      Ilog2Bound(n);
      if Ilog2(n) >= 9 {
        Pow2Monotone(9, Ilog2(n));
      }
    }
  }

  /** Two layers get the same fsid iff they are on the same filesystem, and upper layer objects have fsid 0. */
  lemma FsidIffSameFs(fs: OvlFs, i: nat, j: nat)
    requires fs.Valid() && i < |fs.layers| && j < |fs.layers|
    ensures fs.layers[i].1 == fs.layers[j].1 <==> fs.layers[i].0 == fs.layers[j].0
    ensures fs.layers[i].1 == 0 <==> fs.upperSb == Some(fs.layers[i].0)
    ensures fs.layers[i].1 <= |fs.lowerFs|
  {
    assert fs.IdOf(fs.layers[i].0, fs.layers[i].1) && fs.IdOf(fs.layers[j].0, fs.layers[j].1);
  }

  // ---------- inode numbers ----------

  /** What the mapping depends on after the mount. */
  datatype Config = Config(sameFs: bool, xinoBits: nat, numLowerFs: nat) {
    ghost predicate Ok() {
      && xinoBits <= 32
      && (sameFs ==> xinoBits == 0)
      && (xinoBits > 0 ==> numLowerFs < Pow2(xinoBits))
    }
  }

  datatype Dev = OverlayDev | UpperDev | PseudoDev(fsid: nat)

  /** ovl_map_dev_ino for a non-directory; fsid is that of its lower layer, 0 for an upper object. */
  function MapDevIno(c: Config, fsid: nat, ino: nat): (Dev, nat)
    requires c.xinoBits <= 32
  {
    if c.sameFs then (OverlayDev, ino)
    else if c.xinoBits > 0 && ShiftRight(ino, 64 - c.xinoBits) == 0 then
      (OverlayDev, Or(ino, ShiftLeft(fsid, 64 - c.xinoBits)))
    else if fsid > 0 then (PseudoDev(fsid), ino)
    else (UpperDev, ino)
  }

  /** ovl_remap_lower_ino, the number readdir reports when xino is enabled. */
  function RemapLowerIno(ino: nat, xinoBits: nat, fsid: nat): nat
    requires 0 < xinoBits <= 32
  {
    if ShiftRight(ino, 64 - xinoBits) != 0 then ino else Or(ino, ShiftLeft(fsid, 64 - xinoBits))
  }

  /** i_ino as ovl_fill_inode sets it; none where an arbitrary number is taken. */
  function FillIno(c: Config, fsid: nat, ino: nat): Option<nat>
    requires c.xinoBits <= 32
  {
    if c.sameFs || c.xinoBits > 0 then
      Some(if c.xinoBits > 0 && fsid > 0 && ShiftRight(ino, 64 - c.xinoBits) == 0 then Or(ino, ShiftLeft(fsid, 64 - c.xinoBits)) else ino)
    else None
  }

  /** The high bits hold the fsid, the low bits the real number. */
  lemma MappedParts(c: Config, fsid: nat, ino: nat)
    requires c.Ok() && c.xinoBits > 0 && fsid <= c.numLowerFs && ino < Pow2(64 - c.xinoBits)
    ensures var m := Or(ino, ShiftLeft(fsid, 64 - c.xinoBits));
      m == ino + fsid * Pow2(64 - c.xinoBits) && m / Pow2(64 - c.xinoBits) == fsid && m % Pow2(64 - c.xinoBits) == ino
  {
    var n: nat := 64 - c.xinoBits;
    Pow2Add(c.xinoBits, n);
    Multiply(fsid, Pow2(c.xinoBits), Pow2(n));
    SmallMod(fsid * Pow2(n), Pow2(64));
    OrDisjoint(ino, fsid, n);
    DivideBack(ino, fsid, Pow2(n));
  }

  lemma SmallMod(a: nat, m: nat)
    requires a < m
    ensures a % m == a
  {
  }

  lemma Multiply(a: nat, b: nat, p: nat)
    requires a < b && p > 0
    ensures a * p < b * p
  {
  }

  lemma DivideBack(low: nat, high: nat, p: nat)
    requires low < p
    ensures (low + high * p) / p == high && (low + high * p) % p == low
  {
    var x := low + high * p;
    var q, r := x / p, x % p;
    assert x == q * p + r && 0 <= r < p;
    if q > high {
      Product(q, high + 1, p);
    } else if q < high {
      Product(high, q + 1, p);
    }
  }

  lemma Product(a: nat, b: nat, p: nat)
    requires a >= b
    ensures a * p >= b * p && (b > 0 ==> b * p == (b - 1) * p + p)
  {
  }

  /** ... so the map is injective, even where numbers are too big for it: the device tells those apart. */
  lemma StatInjective(c: Config, f: nat, i: nat, g: nat, j: nat)
    requires c.Ok() && f <= c.numLowerFs && g <= c.numLowerFs && (c.sameFs ==> f == g)
    ensures MapDevIno(c, f, i) == MapDevIno(c, g, j) ==> f == g && i == j
  {
    if c.xinoBits > 0 {
      var p := Pow2(64 - c.xinoBits);
      ShiftedOut(i, 64 - c.xinoBits);
      ShiftedOut(j, 64 - c.xinoBits);
      if i < p {
        MappedParts(c, f, i);
      }
      if j < p {
        MappedParts(c, g, j);
      }
    }
  }

  /** Everything is on the overlay's device that has a number in the common space; the rest is told apart by filesystem. */
  lemma DeviceLaw(c: Config, f: nat, i: nat, g: nat, j: nat)
    requires c.Ok()
    ensures MapDevIno(c, f, i).0.OverlayDev? <==> c.sameFs || (c.xinoBits > 0 && i < Pow2(64 - c.xinoBits))
    ensures var a, b := MapDevIno(c, f, i).0, MapDevIno(c, g, j).0; !a.OverlayDev? && !b.OverlayDev? ==> (a == b <==> f == g)
  {
    if c.xinoBits > 0 {
      ShiftedOut(i, 64 - c.xinoBits);
    }
  }

  /** Over any layers: objects on different filesystems, or with different real numbers, never share device and number. */
  lemma ObjectsDiffer(fs: OvlFs, sb: nat, fsid: nat, ino: nat, sb': nat, fsid': nat, ino': nat)
    requires fs.Valid() && fs.Settings().Ok() && fs.IdOf(sb, fsid) && fs.IdOf(sb', fsid')
    ensures MapDevIno(fs.Settings(), fsid, ino) == MapDevIno(fs.Settings(), fsid', ino') <==> sb == sb' && ino == ino'
  {
    StatInjective(fs.Settings(), fsid, ino, fsid', ino');
  }

  /** stat, readdir and i_ino report the same number, whenever real numbers are unique or xino is enabled. */
  lemma NumbersAgree(c: Config, fsid: nat, ino: nat)
    requires c.Ok() && fsid <= c.numLowerFs
    requires c.sameFs || c.xinoBits > 0
    ensures FillIno(c, fsid, ino) == Some(MapDevIno(c, fsid, ino).1)
    ensures c.xinoBits > 0 ==> RemapLowerIno(ino, c.xinoBits, fsid) == MapDevIno(c, fsid, ino).1
    ensures c.xinoBits == 0 || fsid == 0 ==> MapDevIno(c, fsid, ino).1 == ino
  {
    if c.xinoBits > 0 {
      ShiftedOut(ino, 64 - c.xinoBits);
      if ino < Pow2(64 - c.xinoBits) {
        MappedParts(c, fsid, ino);
        if fsid == 0 {
          MappedParts(c, 0, ino);
        }
      }
    }
  }

  // ---------- stat ----------

  /** An inode in a lower layer. */
  datatype LowerNode = LowerNode(fsid: nat, ino: nat, nlink: nat)

  /** Where an overlay object's inode is: in a lower layer only, or in the upper one, with the lower dentry that lookup or
      copy-up found for it. */
  datatype Stacked = OnlyLower(lower: LowerNode) | OnUpper(ino: nat, origin: Option<LowerNode>)

  /** constIno and indexed are the flags OVL_CONST_INO and OVL_INDEX of its inode. */
  datatype Object = Object(at: Stacked, isDir: bool, indexed: bool, constIno: bool)

  /** Indexing, and NFS export, which makes copy-up index everything and stat trust nothing but the index. */
  datatype Features = Features(index: bool, nfsExport: bool)

  predicate IsOrigin(o: Object) {
    o.at.OnUpper? && o.at.origin.Some? && o.constIno
  }

  /** The fsid and the real number that ovl_getattr starts from. */
  function StatFrom(f: Features, o: Object): (nat, nat) {
    match o.at
    case OnlyLower(l) => (l.fsid, l.ino)
    case OnUpper(ino, origin) =>
      if IsOrigin(o) && (o.indexed || (!f.nfsExport && (o.isDir || origin.value.nlink == 1)))
      then (origin.value.fsid, origin.value.ino)
      else (0, ino)
  }

  /** i_ino, from the inode that ovl_get_inode takes as the key. */
  function InodeIno(c: Config, o: Object): Option<nat>
    requires c.xinoBits <= 32
  {
    match o.at
    case OnlyLower(l) => FillIno(c, if o.constIno then l.fsid else 0, l.ino)
    case OnUpper(ino, origin) => if IsOrigin(o) then FillIno(c, origin.value.fsid, origin.value.ino) else FillIno(c, 0, ino)
  }

  /** ovl_getattr with ovl_map_dev_ino; a directory whose number does not fit keeps the overlay's device and shows i_ino. */
  function Stat(c: Config, f: Features, o: Object): (Dev, Option<nat>)
    requires c.xinoBits <= 32
  {
    var (fsid, ino) := StatFrom(f, o);
    var (dev, number) := MapDevIno(c, fsid, ino);
    if o.isDir && !dev.OverlayDev? then (OverlayDev, InodeIno(c, o)) else (dev, Some(number))
  }

  /** ovl_hash_bylower, on a mount with an upper layer. */
  predicate HashByLower(f: Features, hasUpper: bool, lower: Option<LowerNode>, isDir: bool, indexed: bool) {
    && lower.Some?
    && (indexed || (
      && !((hasUpper || !f.index) && !isDir && lower.value.nlink > 1)
      && !(f.nfsExport && hasUpper)))
  }

  /** ovl_need_index */
  predicate NeedIndex(f: Features, isDir: bool, lower: LowerNode) {
    f.index && (f.nfsExport || (!isDir && lower.nlink > 1))
  }

  /** An object looked up in a lower layer, ... */
  function InLower(f: Features, lower: LowerNode, isDir: bool): Object {
    Object(OnlyLower(lower), isDir, false, HashByLower(f, false, Some(lower), isDir, false))
  }

  /** ... the same after copy-up, its upper inode having this number, ... */
  function CopiedUp(f: Features, lower: LowerNode, isDir: bool, ino: nat): Object {
    InLower(f, lower, isDir).(at := OnUpper(ino, Some(lower)), indexed := NeedIndex(f, isDir, lower))
  }

  /** ... and when it is looked up again later. A file's lower inode is found by the origin that copy-up stored. */
  function LookedUpAgain(f: Features, lower: LowerNode, isDir: bool, ino: nat): Object {
    var indexed := NeedIndex(f, isDir, lower);
    var origin := if isDir || lower.nlink == 1 || indexed then Some(lower) else None;
    Object(OnUpper(ino, origin), isDir, indexed, HashByLower(f, true, origin, isDir, indexed))
  }

  /** Copy-up does not change device and number, at once or after a remount, but for hardlinks without an index, which it
      breaks: they get the upper inode's. */
  lemma CopyUpKeepsNumber(c: Config, f: Features, lower: LowerNode, isDir: bool, ino: nat)
    requires c.Ok() && (c.sameFs || c.xinoBits > 0 || !isDir) && (f.nfsExport ==> f.index) && lower.nlink > 0
    requires lower.fsid <= c.numLowerFs
    ensures var o := if isDir || lower.nlink == 1 || f.index then InLower(f, lower, isDir) else Object(OnUpper(ino, None), isDir, false, false);
      && Stat(c, f, CopiedUp(f, lower, isDir, ino)) == Stat(c, f, o)
      && Stat(c, f, LookedUpAgain(f, lower, isDir, ino)) == Stat(c, f, o)
  {
    if c.sameFs || c.xinoBits > 0 {
      StatNumber(c, f, InLower(f, lower, isDir));
      StatNumber(c, f, CopiedUp(f, lower, isDir, ino));
      StatNumber(c, f, LookedUpAgain(f, lower, isDir, ino));
    }
  }

  /** An inode hashed by the lower one has its number in stat as well. */
  predicate KeyOk(f: Features, o: Object) {
    IsOrigin(o) ==> o.indexed || (!f.nfsExport && (o.isDir || o.at.origin.value.nlink == 1))
  }

  /** Where numbers are unique or can be mapped, directories and files alike show the mapped number. */
  lemma StatNumber(c: Config, f: Features, o: Object)
    requires c.Ok() && (c.sameFs || c.xinoBits > 0) && KeyOk(f, o)
    requires StatFrom(f, o).0 <= c.numLowerFs
    ensures var from := StatFrom(f, o); Stat(c, f, o).1 == Some(MapDevIno(c, from.0, from.1).1)
  {
    var from := StatFrom(f, o);
    NumbersAgree(c, from.0, from.1);
    NumbersAgree(c, 0, from.1);
  }
}
