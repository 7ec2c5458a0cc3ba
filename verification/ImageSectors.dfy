/** The image sector by sector: what the builder writes for the boot sector, the FAT and the
    clusters, and what mounting reads of them. */
module ImageSectors {
  import opened Bytes
  import opened FatTables
  import opened FatBlocks
  import opened FatStore
  import Layout = ImageLayout

  const WORDS_PER_SECTOR := 128

  // ------------------------------------------------------------ numbers in bytes

  function ByteAt(b: seq<Byte>, k: nat): nat
    requires k < |b|
  {
    b[k]
  }

  function Read16(b: seq<Byte>, at: nat): (n: nat)
    requires at + 2 <= |b|
    ensures n < 0x1_0000
  {
    ByteAt(b, at) + 256 * ByteAt(b, at + 1)
  }

  function Read32(b: seq<Byte>, at: nat): (n: U32)
    requires at + 4 <= |b|
  {
    Read16(b, at) + 0x1_0000 * Read16(b, at + 2)
  }

  /** `struct.pack_into("<H", ...)` */
  method PackInto16(b: array<Byte>, at: nat, v: nat)
    requires at + 2 <= b.Length && v < 0x1_0000
    modifies b
    ensures Read16(b[..], at) == v
    ensures forall k: nat | k < b.Length && k != at && k != at + 1 :: b[k] == old(b[k])
  {
    b[at], b[at + 1] := v % 256, v / 256;
  }

  /** `struct.pack_into("<I", ...)` */
  method PackInto32(b: array<Byte>, at: nat, v: U32)
    requires at + 4 <= b.Length
    modifies b
    ensures Read32(b[..], at) == v
    ensures forall k: nat | k < b.Length && !(at <= k < at + 4) :: b[k] == old(b[k])
  {
    PackInto16(b, at, v % 0x1_0000);
    ghost var low := b[..];
    PackInto16(b, at + 2, v / 0x1_0000);
    assert b[..][at] == low[at] && b[..][at + 1] == low[at + 1];
  }

  // --------------------------------------------------------------- boot sector

  /** The fields mounting looks at, at their places. */
  function Parsed(b: seq<Byte>): (boot: Layout.BootSector)
    requires |b| == SECTOR_SIZE
    ensures Layout.Fields(boot)
  {
    Layout.BootSector(Read16(b, 11), ByteAt(b, 13), Read16(b, 14), ByteAt(b, 16), Read16(b, 19), Read32(b, 32),
      Read32(b, 36), Read32(b, 44))
  }

  /** Each field is read from its place in the FAT32 boot sector, whatever stands in the others. */
  lemma BootReads(b: seq<Byte>, boot: Layout.BootSector)
    requires |b| == 512 && Layout.Fields(boot)
    requires b[11..13] == Le(boot.bytesPerSector, 2) && b[13] == boot.sectorsPerCluster
             && b[14..16] == Le(boot.reserved, 2) && b[16] == boot.fatCount && b[19..21] == Le(boot.total16, 2)
    requires b[32..36] == Le(boot.total32, 4) && b[36..40] == Le(boot.spf, 4) && b[44..48] == Le(boot.root, 4)
    ensures Parsed(b) == boot
  {
    SliceReads16(b, 11, boot.bytesPerSector);
    SliceReads16(b, 14, boot.reserved);
    SliceReads16(b, 19, boot.total16);
    SliceReads32(b, 32, boot.total32);
    SliceReads32(b, 36, boot.spf);
    SliceReads32(b, 44, boot.root);
    hide Read16, Read32, Le;
  }

  lemma SliceReads16(b: seq<Byte>, at: nat, v: nat)
    requires at + 2 <= |b| && b[at..at + 2] == Le(v, 2) && v < 0x1_0000
    ensures Read16(b, at) == v
  {
    LeTwo(v);
    hide Le;
    assert b[at] == b[at..at + 2][0] && b[at + 1] == b[at..at + 2][1];
  }

  lemma SliceReads32(b: seq<Byte>, at: nat, v: nat)
    requires at + 4 <= |b| && b[at..at + 4] == Le(v, 4) && v < 0x1_0000_0000
    ensures Read32(b, at) == v
  {
    LeFour(v);
    hide Le;
    assert b[at] == b[at..at + 4][0] && b[at + 1] == b[at..at + 4][1];
    assert b[at + 2] == b[at..at + 4][2] && b[at + 3] == b[at..at + 4][3];
  }

  /** `build_boot_sector` */
  method BuildBootSector(total: U32, g: Layout.Geometry, volume: seq<Byte>) returns (boot: array<Byte>)
    requires g.spf < 0x1_0000_0000 && |volume| == 11
    ensures fresh(boot) && boot.Length == SECTOR_SIZE && Parsed(boot[..]) == Layout.Written(total, g)
  {
    boot := new Byte[SECTOR_SIZE](_ => 0);
    PutBytes(boot, 0, [0xEB, 0x58, 0x90]);
    PutBytes(boot, 3, [0x4D, 0x53, 0x57, 0x49, 0x4E, 0x34, 0x2E, 0x31]);
    PutBytes(boot, 71, volume);
    PutBytes(boot, 82, [0x46, 0x41, 0x54, 0x33, 0x32, 0x20, 0x20, 0x20]);
    boot[64], boot[66] := 0x80, 0x29;
    PackInto32(boot, 67, 0x534F_4E46);
    PackInto16(boot, 48, 1);
    PackInto16(boot, 50, 6);
    PackInto16(boot, 24, 63);
    PackInto16(boot, 26, 255);
    boot[21] := 0xF8;
    boot[510], boot[511] := 0x55, 0xAA;
    hide Parsed;
    PutFields(boot, total, g);
  }

  /** The fields of the geometry. */
  method PutFields(boot: array<Byte>, total: U32, g: Layout.Geometry)
    requires boot.Length == SECTOR_SIZE && g.spf < 0x1_0000_0000
    modifies boot
    ensures Parsed(boot[..]) == Layout.Written(total, g)
  {
    PackInto16(boot, 17, 0);
    PackInto16(boot, 22, 0);
    PackInto32(boot, 28, 0);
    PackInto16(boot, 40, 0);
    PackInto16(boot, 42, 0);
    PutSizes(boot);
    ghost var sizes := boot[..];
    PackInto32(boot, 32, total);
    PackInto32(boot, 36, g.spf);
    PackInto32(boot, 44, Layout.ROOT);
    assert boot[..][..21] == sizes[..21];
  }

  method PutSizes(boot: array<Byte>)
    requires boot.Length == SECTOR_SIZE
    modifies boot
    ensures Read16(boot[..], 11) == Layout.SECTOR && boot[13] == 1 && Read16(boot[..], 14) == Layout.RESERVED
            && boot[16] == Layout.FATS && Read16(boot[..], 19) == 0
  {
    PackInto16(boot, 11, Layout.SECTOR);
    boot[13] := 1;
    PackInto16(boot, 14, Layout.RESERVED);
    boot[16] := Layout.FATS;
    PackInto16(boot, 19, 0);
  }

  method PutBytes(b: array<Byte>, at: nat, data: seq<Byte>)
    requires at + |data| <= b.Length
    modifies b
  {
    for i := 0 to |data| {
      b[at + i] := data[i];
    }
  }

  // ------------------------------------------------------------------- the FAT

  /** The FAT as bytes. */
  method PackFat(fat: array<U32>) returns (blob: array<Byte>)
    ensures fresh(blob) && blob.Length == 4 * fat.Length
    ensures forall i: nat | i < fat.Length :: Read32(blob[..], 4 * i) == fat[i]
  {
    blob := new Byte[4 * fat.Length](_ => 0);
    for index := 0 to fat.Length
      invariant forall i: nat | i < index :: Read32(blob[..], 4 * i) == fat[i]
    {
      ghost var before := blob[..];
      PackInto32(blob, index * 4, fat[index]);
      forall i: nat | i < index ensures Read32(blob[..], 4 * i) == fat[i] {
        SameRead(before, blob[..], 4 * i);
      }
    }
  }

  lemma SameRead(a: seq<Byte>, b: seq<Byte>, at: nat)
    requires at + 4 <= |a| == |b| && forall k | at <= k < at + 4 :: b[k] == a[k]
    ensures Read32(b, at) == Read32(a, at)
  {
  }

  /** Whole sectors copied into the image. */
  method PutSectors(image: array<seq<Byte>>, lba: nat, bytes: seq<Byte>)
    requires |bytes| % SECTOR_SIZE == 0 && lba + |bytes| / SECTOR_SIZE <= image.Length
             && ValidDisk(image[..], SECTOR_SIZE)
    modifies image
    ensures ValidDisk(image[..], SECTOR_SIZE)
    ensures forall j: nat | j < |bytes| / SECTOR_SIZE :: image[lba + j] == bytes[j * SECTOR_SIZE..(j + 1) * SECTOR_SIZE]
    ensures forall k: nat | k < image.Length && !(lba <= k < lba + |bytes| / SECTOR_SIZE) :: image[k] == old(image[k])
  {
    for i := 0 to |bytes| / SECTOR_SIZE
      invariant ValidDisk(image[..], SECTOR_SIZE)
      invariant forall j: nat | j < i :: image[lba + j] == bytes[j * SECTOR_SIZE..(j + 1) * SECTOR_SIZE]
      invariant forall k: nat | k < image.Length && !(lba <= k < lba + i) :: image[k] == old(image[k])
    {
      image[lba + i] := bytes[i * SECTOR_SIZE..(i + 1) * SECTOR_SIZE];
    }
  }

  // --------------------------------------------------------- reading the image

  function SectorAt(image: Disk, lba: nat): (s: seq<Byte>)
    ensures |s| == SECTOR_SIZE
  {
    if lba < |image| && |image[lba]| == SECTOR_SIZE then image[lba] else Zeros(SECTOR_SIZE)
  }

  /** FAT entry `i`, from the first copy. */
  function Word(image: Disk, m: Layout.Mounted, i: nat): U32 {
    Read32(SectorAt(image, m.fatLba + i / WORDS_PER_SECTOR), i % WORDS_PER_SECTOR * 4)
  }

  function FatOf(image: Disk, m: Layout.Mounted): (fat: Table)
    ensures |fat| == m.clusters
  {
    seq(m.clusters, i requires 0 <= i < m.clusters => Word(image, m, i))
  }

  function SectorsAt(image: Disk, lba: nat, n: nat): (ss: Disk)
    ensures |ss| == n && forall k: nat | k < n :: ss[k] == SectorAt(image, lba + k)
  {
    seq(n, k requires 0 <= k < n => SectorAt(image, lba + k))
  }

  function ClusterLba(m: Layout.Mounted, c: nat): nat
    requires c >= 2
  {
    var n: nat := c - 2;
    m.dataLba + n * m.sectorsPerCluster
  }

  /** Cluster `c`: its sectors in the data area; there are none for the two numbers FAT32 keeps. */
  function ClusterAt(image: Disk, m: Layout.Mounted, c: nat): seq<Byte> {
    if c < 2 then Zeros(m.sectorsPerCluster * SECTOR_SIZE)
    else Flat(SectorsAt(image, ClusterLba(m, c), m.sectorsPerCluster))
  }

  /** The clusters stand one behind the other from the start of the data area on. */
  lemma ClustersTile(m: Layout.Mounted, c: nat)
    requires c >= 2
    ensures ClusterLba(m, 2) == m.dataLba && ClusterLba(m, c + 1) == ClusterLba(m, c) + m.sectorsPerCluster
  {
    var n: nat := c - 2;
    assert (n + 1) * m.sectorsPerCluster == n * m.sectorsPerCluster + m.sectorsPerCluster;
  }

  /** And each holds its sectors in turn. */
  lemma ClusterSectors(image: Disk, m: Layout.Mounted, c: nat, k: nat)
    requires c >= 2 && k < m.sectorsPerCluster && ValidDisk(image, 512) && ClusterLba(m, c) + k < |image|
    ensures (k + 1) * 512 <= |ClusterAt(image, m, c)|
            && ClusterAt(image, m, c)[k * 512..(k + 1) * 512] == image[ClusterLba(m, c) + k]
  {
    var ss := SectorsAt(image, ClusterLba(m, c), m.sectorsPerCluster);
    assert ClusterAt(image, m, c) == Flat(ss);
    assert |image[ClusterLba(m, c) + k]| == 512;
    assert ss[k] == image[ClusterLba(m, c) + k];
    hide ClusterAt, SectorsAt, ClusterLba;
    FlatPosition(ss, 512, k);
    FlatAround(ss, k);
    hide Flat;
    Middle(Flat(ss[..k]), ss[k], Flat(ss[k + 1..]));
  }

  lemma Middle(a: seq<Byte>, b: seq<Byte>, c: seq<Byte>)
    ensures (a + b + c)[|a|..|a| + |b|] == b
  {
  }

  function DiskOf(image: Disk, m: Layout.Mounted): (disk: Disk)
    ensures |disk| == m.clusters
  {
    seq(m.clusters, c requires 0 <= c < m.clusters => ClusterAt(image, m, c))
  }

  lemma ClusterSize(image: Disk, m: Layout.Mounted, c: nat)
    ensures |ClusterAt(image, m, c)| == m.sectorsPerCluster * SECTOR_SIZE
  {
    if c >= 2 {
      FlatLength(SectorsAt(image, ClusterLba(m, c), m.sectorsPerCluster), SECTOR_SIZE);
    }
  }

  lemma DiskValid(image: Disk, m: Layout.Mounted)
    ensures ValidDisk(DiskOf(image, m), m.sectorsPerCluster * SECTOR_SIZE)
  {
    forall c: nat | c < m.clusters ensures |DiskOf(image, m)[c]| == m.sectorsPerCluster * SECTOR_SIZE {
      ClusterSize(image, m, c);
    }
    hide ClusterAt;
  }

  /** What mounting makes of a boot sector it accepts. */
  function GeometryOf(b: Layout.BootSector): Layout.Mounted
    requires Layout.Mountable(b)
  {
    Layout.Mounted(b.reserved, b.reserved + b.fatCount * b.spf, b.sectorsPerCluster, Layout.ClustersOf(b), b.root,
      b.spf * 128)
  }

  /** `fat32_mount`: the boot sector is read, and if it is in order, the FAT. */
  method MountImage(image: array<seq<Byte>>) returns (r: Option<(Layout.Mounted, Store)>)
    requires image.Length > 0 && ValidDisk(image[..], SECTOR_SIZE) && Layout.Sectors(Parsed(image[0])) <= image.Length
    ensures r.Some? <==> Layout.Mountable(Parsed(image[0]))
    ensures r.Some? ==>
              var (m, store) := r.value;
              && m == GeometryOf(Parsed(image[0])) && store.Valid() && store.size == m.sectorsPerCluster * SECTOR_SIZE
              && store.table.View() == FatOf(image[..], m) && store.disk[..] == DiskOf(image[..], m)
              && fresh(store) && fresh(store.disk) && fresh(store.table) && fresh(store.table.entries)
  {
    var boot := Parsed(image[0]);
    hide Parsed;
    var mounted := Layout.Mount(boot);
    if mounted.None? {
      return None;
    }
    var m := mounted.value;
    DiskValid(image[..], m);
    ClusterLimits(boot);
    hide *;
    var table := new FatTable(FatOf(image[..], m));
    var store := new Store(table, DiskOf(image[..], m), m.sectorsPerCluster * SECTOR_SIZE);
    r := Some((m, store));
  }

  lemma ClusterLimits(b: Layout.BootSector)
    requires Layout.Mountable(b)
    ensures Layout.ClustersOf(b) <= MAX_CLUSTERS && SECTOR_SIZE <= b.sectorsPerCluster * SECTOR_SIZE <= MAX_CLUSTER_SIZE
    ensures b.sectorsPerCluster * SECTOR_SIZE % SECTOR_SIZE == 0
  {
  }

  // ----------------------------------------------------------------- flushing

  /** Sector `j` of copy `i` of the FAT. */
  function CopyAt(b: Layout.BootSector, i: nat, j: nat): nat {
    b.reserved + i * b.spf + j
  }

  /** Copy `i` is the table in memory. */
  ghost predicate CopyHolds(image: Disk, b: Layout.BootSector, i: nat, fat: Table) {
    forall w: nat | w < |fat| ::
      Read32(SectorAt(image, CopyAt(b, i, w / WORDS_PER_SECTOR)), w % WORDS_PER_SECTOR * 4) == fat[w]
  }

  /** The copies of the FAT lie one behind the other, the first behind the reserved sectors and the
      first cluster behind the last. */
  lemma CopiesTile(b: Layout.BootSector, i: nat, j: nat)
    requires Layout.Mountable(b)
    ensures CopyAt(b, 0, 0) == b.reserved && CopyAt(b, i + 1, 0) == CopyAt(b, i, 0) + b.spf
    ensures CopyAt(b, i, j) == CopyAt(b, i, 0) + j
    ensures ClusterLba(GeometryOf(b), 2) == CopyAt(b, b.fatCount, 0)
  {
    assert (i + 1) * b.spf == i * b.spf + b.spf;
    ClustersTile(GeometryOf(b), 2);
  }

  lemma CopyBounds(b: Layout.BootSector, i: nat)
    requires i < b.fatCount
    ensures b.reserved <= CopyAt(b, i, 0)
    ensures CopyAt(b, i, 0) + b.spf == CopyAt(b, i + 1, 0) <= CopyAt(b, b.fatCount, 0)
  {
    Product(i + 1, b.fatCount, b.spf);
    assert (i + 1) * b.spf == i * b.spf + b.spf;
  }

  /** `flush_fat`: every copy of the FAT becomes the table in memory, and nothing else changes, so
      that mounting once more finds this table and the same clusters. */
  method FlushFat(image: array<seq<Byte>>, b: Layout.BootSector, fat: array<U32>)
    requires Layout.Mountable(b) && Layout.Sectors(b) <= image.Length && ValidDisk(image[..], SECTOR_SIZE)
    requires fat.Length == b.spf * WORDS_PER_SECTOR
    modifies image
    ensures ValidDisk(image[..], SECTOR_SIZE) && forall i: nat | i < b.fatCount :: CopyHolds(image[..], b, i, fat[..])
    ensures forall k: nat | k < image.Length && !(b.reserved <= k < b.reserved + b.fatCount * b.spf) ::
              image[k] == old(image[k])
    ensures FatOf(image[..], GeometryOf(b)) == fat[..Layout.ClustersOf(b)]
    ensures DiskOf(image[..], GeometryOf(b)) == old(DiskOf(image[..], GeometryOf(b)))
  {
    ghost var before := image[..];
    FlushLimits(b);
    hide *;
    var blob := PackFat(fat);
    ghost var table := fat[..];
    assert forall w: nat | w < |table| :: Read32(blob[..], 4 * w) == table[w];
    BlobSize(fat.Length, b.spf);
    WriteCopies(image, b, blob[..], table);
    Remounts(before, image[..], b, table);
  }

  /** The loop over the copies. */
  method WriteCopies(image: array<seq<Byte>>, b: Layout.BootSector, blob: seq<Byte>, ghost fat: Table)
    requires ValidDisk(image[..], SECTOR_SIZE) && CopyAt(b, b.fatCount, 0) <= image.Length
    requires |blob| == b.spf * SECTOR_SIZE && |fat| == b.spf * WORDS_PER_SECTOR
    requires |blob| == 4 * |fat| && forall w: nat | w < |fat| :: Read32(blob, 4 * w) == fat[w]
    modifies image
    ensures ValidDisk(image[..], SECTOR_SIZE) && forall i: nat | i < b.fatCount :: CopyHolds(image[..], b, i, fat)
    ensures forall k: nat | k < image.Length && !(b.reserved <= k < CopyAt(b, b.fatCount, 0)) ::
              image[k] == old(image[k])
  {
    ghost var before := image[..];
    hide *;
    CopyStart(b);
    BlobSize(|fat|, b.spf);
    for i := 0 to b.fatCount
      invariant ValidDisk(image[..], SECTOR_SIZE)
      invariant forall c: nat | c < i :: CopyHolds(image[..], b, c, fat)
      invariant forall k: nat | k < image.Length && !(b.reserved <= k < CopyAt(b, i, 0)) :: image[k] == before[k]
    {
      CopyBounds(b, i);
      ghost var last := image[..];
      PutSectors(image, CopyAt(b, i, 0), blob);
      CopyWritten(image[..], b, i, blob, fat);
      forall c: nat | c < i ensures CopyHolds(image[..], b, c, fat) {
        CopyStays(last, image[..], b, c, i, fat);
      }
    }
  }

  lemma FlushLimits(b: Layout.BootSector)
    requires Layout.Mountable(b)
    ensures b.fatCount > 0 && b.spf > 0 && CopyAt(b, b.fatCount, 0) <= Layout.Sectors(b)
            && CopyAt(b, b.fatCount, 0) == b.reserved + b.fatCount * b.spf
    ensures 0 <= Layout.ClustersOf(b) <= b.spf * WORDS_PER_SECTOR && WORDS_PER_SECTOR == 128
  {
  }

  lemma CopyStart(b: Layout.BootSector)
    ensures CopyAt(b, 0, 0) == b.reserved && SECTOR_SIZE == 512
  {
  }

  lemma BlobSize(words: nat, spf: nat)
    requires words == spf * WORDS_PER_SECTOR
    ensures 4 * words == spf * SECTOR_SIZE && 4 * words % SECTOR_SIZE == 0 && 4 * words / SECTOR_SIZE == spf
  {
  }

  lemma CopyWritten(image: Disk, b: Layout.BootSector, i: nat, blob: seq<Byte>, fat: Table)
    requires ValidDisk(image, SECTOR_SIZE) && |blob| == b.spf * SECTOR_SIZE && |fat| == b.spf * WORDS_PER_SECTOR
    requires CopyAt(b, i, 0) + b.spf <= |image|
    requires forall j: nat | j < b.spf :: image[CopyAt(b, i, 0) + j] == blob[j * SECTOR_SIZE..(j + 1) * SECTOR_SIZE]
    requires |blob| == 4 * |fat| && forall w: nat | w < |fat| :: Read32(blob, 4 * w) == fat[w]
    ensures CopyHolds(image, b, i, fat)
  {
    forall w: nat | w < |fat|
      ensures Read32(SectorAt(image, CopyAt(b, i, w / WORDS_PER_SECTOR)), w % WORDS_PER_SECTOR * 4) == fat[w]
    {
      SectorWord(blob, b.spf, w);
      hide Read32;
      var j := w / WORDS_PER_SECTOR;
      assert CopyAt(b, i, j) == CopyAt(b, i, 0) + j;
      assert |image[CopyAt(b, i, 0) + j]| == SECTOR_SIZE;
    }
  }

  lemma CopyStays(last: Disk, image: Disk, b: Layout.BootSector, c: nat, i: nat, fat: Table)
    requires CopyHolds(last, b, c, fat) && c < i && |fat| == b.spf * WORDS_PER_SECTOR && |image| == |last|
    requires forall k: nat | k < CopyAt(b, i, 0) && k < |last| :: image[k] == last[k]
    ensures CopyHolds(image, b, c, fat)
  {
    forall w: nat | w < |fat|
      ensures Read32(SectorAt(image, CopyAt(b, c, w / WORDS_PER_SECTOR)), w % WORDS_PER_SECTOR * 4) == fat[w]
    {
      var j := w / WORDS_PER_SECTOR;
      assert j < b.spf;
      Product(c + 1, i, b.spf);
      assert (c + 1) * b.spf == c * b.spf + b.spf;
      assert CopyAt(b, c, j) < CopyAt(b, i, 0);
      hide Read32, CopyAt;
      assert SectorAt(image, CopyAt(b, c, j)) == SectorAt(last, CopyAt(b, c, j));
    }
  }

  lemma Remounts(before: Disk, image: Disk, b: Layout.BootSector, fat: Table)
    requires Layout.Mountable(b) && |image| == |before| && |fat| == b.spf * WORDS_PER_SECTOR && b.fatCount > 0
    requires CopyHolds(image, b, 0, fat)
    requires forall k: nat | k < |image| && !(b.reserved <= k < CopyAt(b, b.fatCount, 0)) :: image[k] == before[k]
    ensures 0 <= Layout.ClustersOf(b) <= |fat| && FatOf(image, GeometryOf(b)) == fat[..Layout.ClustersOf(b)]
    ensures DiskOf(image, GeometryOf(b)) == DiskOf(before, GeometryOf(b))
  {
    var m := GeometryOf(b);
    FlushLimits(b);
    assert m.dataLba == CopyAt(b, b.fatCount, 0) && m.fatLba == b.reserved && m.clusters == Layout.ClustersOf(b);
    hide *;
    SameFat(image, b, m, fat);
    SameDisk(before, image, m);
  }

  lemma SameFat(image: Disk, b: Layout.BootSector, m: Layout.Mounted, fat: Table)
    requires CopyHolds(image, b, 0, fat) && m.fatLba == b.reserved && m.clusters <= |fat|
    ensures FatOf(image, m) == fat[..m.clusters]
  {
    forall i: nat | i < m.clusters ensures FatOf(image, m)[i] == fat[i] {
      assert CopyAt(b, 0, i / WORDS_PER_SECTOR) == m.fatLba + i / WORDS_PER_SECTOR;
    }
    hide Read32;
  }

  lemma SameDisk(before: Disk, image: Disk, m: Layout.Mounted)
    requires |image| == |before| && forall k: nat | m.dataLba <= k < |image| :: image[k] == before[k]
    ensures DiskOf(image, m) == DiskOf(before, m)
  {
    hide ClusterAt;
    forall c: nat | c < m.clusters ensures ClusterAt(image, m, c) == ClusterAt(before, m, c) {
      SameCluster(before, image, m, c);
    }
  }

  lemma SameCluster(before: Disk, image: Disk, m: Layout.Mounted, c: nat)
    requires |image| == |before| && forall k: nat | m.dataLba <= k < |image| :: image[k] == before[k]
    ensures ClusterAt(image, m, c) == ClusterAt(before, m, c)
  {
    hide ClusterLba, SectorsAt, Flat;
    if c >= 2 {
      LbaBehind(m, c);
      SameSectors(before, image, m.dataLba, ClusterLba(m, c), m.sectorsPerCluster);
    }
  }

  lemma LbaBehind(m: Layout.Mounted, c: nat)
    requires c >= 2
    ensures ClusterLba(m, c) >= m.dataLba
  {
  }

  lemma SameSectors(before: Disk, image: Disk, from: nat, lba: nat, n: nat)
    requires |image| == |before| && from <= lba && forall k: nat | from <= k < |image| :: image[k] == before[k]
    ensures SectorsAt(image, lba, n) == SectorsAt(before, lba, n)
  {
  }

  // ------------------------------------------------------ the builder's image

  /** The first copy of the FAT holds these numbers. */
  ghost predicate FatIn(image: Disk, fat: Table) {
    forall i: nat | i < |fat| ::
      Read32(SectorAt(image, Layout.RESERVED + i / WORDS_PER_SECTOR), i % WORDS_PER_SECTOR * 4) == fat[i]
  }

  /** The image holds boot sector, FAT and clusters where the layout puts them. */
  ghost predicate LaidOut(image: Disk, total: nat, g: Layout.Geometry, fat: Table, disk: Disk) {
    && |image| == total && ValidDisk(image, SECTOR_SIZE) && total > 0
    && Parsed(image[0]) == Layout.Written(total, g)
    && FatIn(image, fat)
    && forall c: nat | 2 <= c < |disk| :: SectorAt(image, g.dataLba + c - 2) == disk[c]
  }

  /** Both copies of the FAT. */
  method WriteFats(image: array<seq<Byte>>, blob: seq<Byte>, spf: nat)
    requires ValidDisk(image[..], SECTOR_SIZE) && |blob| == spf * SECTOR_SIZE
             && Layout.RESERVED + Layout.FATS * spf <= image.Length
    modifies image
    ensures ValidDisk(image[..], SECTOR_SIZE)
    ensures forall j: nat | j < spf :: image[Layout.RESERVED + j] == blob[j * SECTOR_SIZE..(j + 1) * SECTOR_SIZE]
                                       == image[Layout.RESERVED + spf + j]
    ensures forall k: nat | k < image.Length && !(Layout.RESERVED <= k < Layout.RESERVED + Layout.FATS * spf) ::
              image[k] == old(image[k])
  {
    PutSectors(image, Layout.RESERVED, blob);
    ghost var first := image[..];
    PutSectors(image, Layout.RESERVED + spf, blob);
    assert forall k: nat | Layout.RESERVED <= k < Layout.RESERVED + spf :: image[k] == first[k];
  }

  /** Where `write_cluster_chain` puts the clusters. */
  method WriteData(image: array<seq<Byte>>, dataLba: nat, disk: array<seq<Byte>>)
    requires ValidDisk(image[..], SECTOR_SIZE) && ValidDisk(disk[..], SECTOR_SIZE) && disk.Length >= 2
             && dataLba + disk.Length - 2 <= image.Length && image != disk
    modifies image
    ensures ValidDisk(image[..], SECTOR_SIZE)
    ensures forall c: nat | 2 <= c < disk.Length :: image[dataLba + c - 2] == disk[c]
    ensures forall k: nat | k < image.Length && !(dataLba <= k < dataLba + disk.Length - 2) :: image[k] == old(image[k])
  {
    for c := 2 to disk.Length
      invariant ValidDisk(image[..], SECTOR_SIZE)
      invariant forall b: nat | 2 <= b < c :: image[dataLba + b - 2] == disk[b]
      invariant forall k: nat | k < image.Length && !(dataLba <= k < dataLba + c - 2) :: image[k] == old(image[k])
    {
      assert |disk[..][c]| == SECTOR_SIZE;
      image[dataLba + c - 2] := disk[c];
    }
  }

  /** A number of the FAT, found in its sector. */
  lemma SectorWord(blob: seq<Byte>, spf: nat, i: nat)
    requires |blob| == spf * SECTOR_SIZE && i < spf * WORDS_PER_SECTOR
    ensures var j := i / WORDS_PER_SECTOR;
            j < spf && (j + 1) * SECTOR_SIZE <= |blob| && 4 * i + 4 <= |blob|
            && Read32(blob[j * SECTOR_SIZE..(j + 1) * SECTOR_SIZE], i % WORDS_PER_SECTOR * 4) == Read32(blob, 4 * i)
  {
    var j, r := i / WORDS_PER_SECTOR, i % WORDS_PER_SECTOR;
    assert i == j * WORDS_PER_SECTOR + r && j < spf;
    var s := blob[j * SECTOR_SIZE..(j + 1) * SECTOR_SIZE];
    assert 4 * i == j * SECTOR_SIZE + r * 4;
    assert forall k: nat | k < SECTOR_SIZE :: s[k] == blob[j * SECTOR_SIZE + k];
  }

  lemma FatWords(image: Disk, blob: seq<Byte>, spf: nat, fat: Table)
    requires ValidDisk(image, SECTOR_SIZE) && |blob| == spf * SECTOR_SIZE && |fat| == spf * WORDS_PER_SECTOR
    requires Layout.RESERVED + spf <= |image|
    requires forall j: nat | j < spf :: image[Layout.RESERVED + j] == blob[j * SECTOR_SIZE..(j + 1) * SECTOR_SIZE]
    requires forall i: nat | i < |fat| :: Read32(blob, 4 * i) == fat[i]
    ensures FatIn(image, fat)
  {
    forall i: nat | i < |fat|
      ensures Read32(SectorAt(image, Layout.RESERVED + i / WORDS_PER_SECTOR), i % WORDS_PER_SECTOR * 4) == fat[i]
    {
      SectorWord(blob, spf, i);
      hide Read32;
      assert |image[Layout.RESERVED + i / WORDS_PER_SECTOR]| == SECTOR_SIZE;
    }
  }

  /** The end of the builder's main program. */
  method WriteImage(total: U32, g: Layout.Geometry, fat: array<U32>, disk: array<seq<Byte>>, volume: seq<Byte>)
    returns (image: array<seq<Byte>>)
    requires |volume| == 11 && g.spf < 0x1_0000_0000 && fat.Length == g.spf * WORDS_PER_SECTOR && disk.Length >= 2
    requires g.dataLba == Layout.RESERVED + Layout.FATS * g.spf && g.dataLba + disk.Length - 2 <= total
    requires ValidDisk(disk[..], SECTOR_SIZE)
    ensures fresh(image) && LaidOut(image[..], total, g, fat[..], disk[..])
  {
    hide *;
    ImageLimits(g);
    var boot := BuildBootSector(total, g, volume);
    image := StartImage(total, boot[..]);
    ghost var words := fat[..];
    WriteFatArea(image, fat, g.spf);
    ghost var fats := image[..];
    WriteData(image, g.dataLba, disk);
    FatStays(fats, image[..], g.spf, words);
    DataSectors(image[..], g.dataLba, disk[..]);
    IsLaidOut(image[..], total, g, words, disk[..]);
  }

  /** The FAT packed and written. */
  method WriteFatArea(image: array<seq<Byte>>, fat: array<U32>, spf: nat)
    requires ValidDisk(image[..], SECTOR_SIZE) && fat.Length == spf * WORDS_PER_SECTOR
             && Layout.RESERVED + Layout.FATS * spf <= image.Length
    modifies image
    ensures ValidDisk(image[..], SECTOR_SIZE)
    ensures FatIn(image[..], fat[..])
    ensures forall k: nat | k < image.Length && !(Layout.RESERVED <= k < Layout.RESERVED + Layout.FATS * spf) ::
              image[k] == old(image[k])
  {
    hide *;
    FatLimits(spf);
    var packed := PackFat(fat);
    var blob := packed[..];
    ghost var words := fat[..];
    assert forall i: nat | i < |words| :: Read32(blob, 4 * i) == words[i];
    BlobSize(fat.Length, spf);
    WriteFats(image, blob, spf);
    FatWords(image[..], blob, spf, words);
  }

  lemma FatLimits(spf: nat)
    ensures Layout.RESERVED == 32 && Layout.FATS * spf == 2 * spf
  {
  }

  /** Boot sector and its copy, zeros behind. */
  method StartImage(total: U32, boot: seq<Byte>) returns (image: array<seq<Byte>>)
    requires |boot| == SECTOR_SIZE && total > 6
    ensures fresh(image) && image.Length == total && ValidDisk(image[..], SECTOR_SIZE) && image[0] == boot
  {
    image := new seq<Byte>[total](_ => Zeros(SECTOR_SIZE));
    image[0], image[6] := boot, boot;
  }

  lemma FatStays(before: Disk, image: Disk, spf: nat, fat: Table)
    requires |image| == |before| && |fat| == spf * WORDS_PER_SECTOR
    requires forall k: nat | k < Layout.RESERVED + spf && k < |image| :: image[k] == before[k]
    requires FatIn(before, fat)
    ensures FatIn(image, fat)
  {
    hide Read32;
    forall i: nat | i < |fat|
      ensures SectorAt(image, Layout.RESERVED + i / WORDS_PER_SECTOR) ==
              SectorAt(before, Layout.RESERVED + i / WORDS_PER_SECTOR)
    {
      assert i / WORDS_PER_SECTOR < spf;
    }
  }

  lemma ImageLimits(g: Layout.Geometry)
    requires g.dataLba == Layout.RESERVED + Layout.FATS * g.spf
    ensures Layout.RESERVED == 32 && Layout.FATS == 2 && g.dataLba == 32 + 2 * g.spf && SECTOR_SIZE == 512
  {
  }

  lemma IsLaidOut(image: Disk, total: nat, g: Layout.Geometry, fat: Table, disk: Disk)
    requires |image| == total > 0 && ValidDisk(image, SECTOR_SIZE) && Parsed(image[0]) == Layout.Written(total, g)
    requires FatIn(image, fat)
    requires forall c: nat | 2 <= c < |disk| :: SectorAt(image, g.dataLba + c - 2) == disk[c]
    ensures LaidOut(image, total, g, fat, disk)
  {
    hide Parsed, Read32;
  }

  lemma DataSectors(image: Disk, dataLba: nat, disk: Disk)
    requires ValidDisk(image, SECTOR_SIZE) && |disk| >= 2 && dataLba + |disk| - 2 <= |image|
    requires forall c: nat | 2 <= c < |disk| :: image[dataLba + c - 2] == disk[c]
    ensures forall c: nat | 2 <= c < |disk| :: SectorAt(image, dataLba + c - 2) == disk[c]
  {
  }

  /** Mounting finds the builder's numbers, and reads its FAT and its clusters. */
  lemma MountReads(image: Disk, total: nat, g: Layout.Geometry, fat: Table, disk: Disk)
    requires LaidOut(image, total, g, fat, disk) && Layout.Mountable(Layout.Written(total, g))
    requires g.dataLba == Layout.RESERVED + Layout.FATS * g.spf && |disk| == g.clusters
             && g.clusters == Layout.ClustersOf(Layout.Written(total, g)) <= |fat|
    requires |disk| >= 2 && disk[0] == disk[1] == Zeros(SECTOR_SIZE)
    ensures var m := GeometryOf(Layout.Written(total, g));
            FatOf(image, m) == fat[..g.clusters] && DiskOf(image, m) == disk && m.root == Layout.ROOT
            && m.sectorsPerCluster == 1
  {
    var m := GeometryOf(Layout.Written(total, g));
    assert m.fatLba == Layout.RESERVED && m.dataLba == g.dataLba && m.sectorsPerCluster == 1;
    forall c: nat | c < |disk| ensures ClusterAt(image, m, c) == disk[c] {
      if c >= 2 {
        var ss := SectorsAt(image, ClusterLba(m, c), 1);
        assert ss[0] == SectorAt(image, g.dataLba + c - 2);
        assert ss == [ss[0]];
        FlatSingle(ss[0]);
      }
    }
    hide ClusterAt, Parsed, Layout.ClustersOf, Layout.Mountable;
    assert forall i: nat | i < g.clusters :: FatOf(image, m)[i] == fat[i];
  }
}
