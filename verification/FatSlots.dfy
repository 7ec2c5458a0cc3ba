/** The 32-byte directory slot, read as a short entry or as a long-name piece.
    Both readings share the same bytes, as in the kernel. */
module FatSlots {
  import opened Bytes

  type Slot = s: seq<Byte> | |s| == 32 witness seq(32, _ => 0)
  type Raw = s: seq<Byte> | |s| == 11 witness seq(11, _ => 0)

  const ATTR_VOLUME_ID: Byte := 0x08
  const ATTR_LFN: Byte := 0x0F
  const ATTR_DIRECTORY: Byte := 0x10
  const ATTR_ARCHIVE: Byte := 0x20
  const DELETED: Byte := 0xE5
  const SLOT_SIZE := 32
  const NAME_CAPACITY := 128
  const UNITS_PER_SLOT := 13
  const MAX_NAME_ENTRIES := 11

  const ZeroSlot: Slot := Zeros(32)

  /** Byte `k` as an unbounded integer, for field arithmetic. */
  function At(s: Slot, k: nat): nat
    requires k < 32
  {
    s[k]
  }

  function Attributes(s: Slot): Byte { s[11] }

  function RawName(s: Slot): Raw { s[..11] }

  function FirstCluster(s: Slot): (c: nat)
    ensures c < 0x1_0000_0000
  {
    var high := At(s, 20) + 256 * At(s, 21);
    high * 0x1_0000 + At(s, 26) + 256 * At(s, 27)
  }

  function Size(s: Slot): (n: nat)
    ensures n < 0x1_0000_0000
  {
    At(s, 28) + 256 * At(s, 29) + 0x1_0000 * At(s, 30) + 0x100_0000 * At(s, 31)
  }

  predicate IsEnd(s: Slot) { s[0] == 0 }

  predicate IsDeleted(s: Slot) { s[0] == DELETED }

  predicate IsFreeSlot(s: Slot) { IsEnd(s) || IsDeleted(s) }

  predicate IsLfn(s: Slot) { Attributes(s) == ATTR_LFN }

  predicate HasVolumeBit(s: Slot) { (Attributes(s) / ATTR_VOLUME_ID) % 2 == 1 }

  predicate IsDirectory(s: Slot) { (Attributes(s) / ATTR_DIRECTORY) % 2 == 1 }

  /** A slot that names a file or directory. */
  predicate IsLive(s: Slot) {
    !IsFreeSlot(s) && !HasVolumeBit(s)
  }

  predicate IsSpecial(s: Slot) { s[0] == DOT }

  function WithFirstCluster(s: Slot, c: nat): (r: Slot)
    requires c < 0x1_0000_0000
    ensures FirstCluster(r) == c && Size(r) == Size(s)
    ensures RawName(r) == RawName(s) && Attributes(r) == Attributes(s)
  {
    var high, low := c / 0x1_0000, c % 0x1_0000;
    s[20 := high % 256][21 := high / 256][26 := low % 256][27 := low / 256]
  }

  function WithSize(s: Slot, n: nat): (r: Slot)
    requires n < 0x1_0000_0000
    ensures Size(r) == n && FirstCluster(r) == FirstCluster(s)
    ensures RawName(r) == RawName(s) && Attributes(r) == Attributes(s)
  {
    var n1 := n / 256;
    var n2 := n1 / 256;
    s[28 := n % 256][29 := n1 % 256][30 := n2 % 256][31 := n2 / 256]
  }

  function ShortEntry(raw: Raw, attributes: Byte, first: nat, size: nat): (r: Slot)
    requires first < 0x1_0000_0000 && size < 0x1_0000_0000
    ensures RawName(r) == raw && Attributes(r) == attributes
    ensures FirstCluster(r) == first && Size(r) == size
  {
    WithSize(WithFirstCluster(raw + [attributes] + Zeros(20), first), size)
  }

  function Deleted(s: Slot): (r: Slot)
    ensures IsDeleted(r) && Attributes(r) == Attributes(s)
  {
    s[0 := DELETED]
  }

  // -------------------------------------------------- long-name pieces

  function Order(s: Slot): Byte { s[0] }

  function LfnChecksum(s: Slot): Byte { s[13] }

  /** Byte position of the `j`-th 16-bit unit: five after the order byte, six after the
      checksum, two at the end. */
  function UnitOffset(j: nat): (k: nat)
    requires j < UNITS_PER_SLOT
    ensures 0 < k < 31 && k != 11 && k != 12 && k != 13 && k != 10
  {
    if j < 5 then 1 + 2 * j else if j < 11 then 4 + 2 * j else 6 + 2 * j
  }

  function Unit(s: Slot, j: nat): (u: nat)
    requires j < UNITS_PER_SLOT
    ensures u < 0x1_0000
  {
    At(s, UnitOffset(j)) + 256 * At(s, UnitOffset(j) + 1)
  }

  /** The unit stored for character `i` of a name: the character, one terminator, then padding. */
  function NameUnit(name: Str, i: nat): (u: nat)
    ensures u < 0x1_0000
  {
    if i < |name| then name[i] else if i == |name| then 0 else 0xFFFF
  }

  function LfnByte(name: Str, base: nat, order: Byte, checksum: Byte, k: nat): Byte
    requires k < 32
  {
    if k == 0 then order
    else if k < 11 then NameUnitByte(name, base + (k - 1) / 2, (k - 1) % 2)
    else if k == 11 then ATTR_LFN
    else if k == 12 then 0
    else if k == 13 then checksum
    else if k < 26 then NameUnitByte(name, base + (k - 4) / 2, k % 2)
    else if k < 28 then 0
    else NameUnitByte(name, base + (k - 6) / 2, k % 2)
  }

  function NameUnitByte(name: Str, i: nat, half: nat): Byte
    requires half < 2
  {
    if half == 0 then NameUnit(name, i) % 256 else NameUnit(name, i) / 256
  }

  /** Piece number `order` of a name; the piece with the highest number comes first on disk. */
  function LfnSlot(name: Str, order: nat, last: bool, checksum: Byte): (s: Slot)
    requires 1 <= order < 32
    ensures IsLfn(s) && LfnChecksum(s) == checksum && !IsFreeSlot(s)
    ensures Order(s) == order + if last then 0x40 else 0
    ensures forall j: nat | j < UNITS_PER_SLOT :: Unit(s, j) == NameUnit(name, (order - 1) * UNITS_PER_SLOT + j)
  {
    var base := (order - 1) * UNITS_PER_SLOT;
    var first: Byte := order + if last then 0x40 else 0;
    var s: Slot := seq(32, k requires 0 <= k < 32 => LfnByte(name, base, first, checksum, k));
    assert forall j: nat | j < UNITS_PER_SLOT :: Unit(s, j) == NameUnit(name, base + j) by {
      forall j: nat | j < UNITS_PER_SLOT ensures Unit(s, j) == NameUnit(name, base + j) {
        UnitReads(name, base, first, checksum, j);
      }
    }
    s
  }

  lemma UnitReads(name: Str, base: nat, order: Byte, checksum: Byte, j: nat)
    requires j < UNITS_PER_SLOT
    ensures LfnByte(name, base, order, checksum, UnitOffset(j)) == NameUnitByte(name, base + j, 0)
    ensures LfnByte(name, base, order, checksum, UnitOffset(j) + 1) == NameUnitByte(name, base + j, 1)
  {
  }

  function {:tailrecursion false} ChecksumFrom(raw: Raw, i: nat): Byte
    requires i <= 11
  {
    if i == 0 then 0
    else
      var sum := ChecksumFrom(raw, i - 1);
      ((if sum % 2 == 1 then 0x80 else 0) + sum / 2 + raw[i - 1]) % 256
  }

  /** The checksum that ties long-name pieces to their short entry. */
  function Checksum(raw: Raw): Byte {
    ChecksumFrom(raw, 11)
  }
}
