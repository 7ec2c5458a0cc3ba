/** The geometry of a disk image: the builder's search for the FAT's size, and what the kernel
    makes of the boot sector it writes. */
module ImageLayout {
  import opened Bytes

  const SECTOR := 512
  const RESERVED := 32
  const FATS := 2
  const ROOT := 2
  const ROUNDS := 32

  /** Sectors a FAT needs when it takes `spf` sectors already. */
  function Needed(total: nat, spf: nat): nat
    requires total >= RESERVED + FATS * spf
  {
    ((total - RESERVED - FATS * spf + 2) * 4 + (SECTOR - 1)) / SECTOR
  }

  datatype Geometry = Geometry(spf: nat, clusters: nat, dataLba: nat)

  datatype Outcome = Layout(g: Geometry) | NoDataSectors | NoConvergence | FatTooSmall

  /** The FAT's size is right: it covers every cluster and is no larger than that takes. */
  predicate Fixed(total: nat, spf: nat) {
    total > RESERVED + FATS * spf && Needed(total, spf) == spf
  }

  /** The only candidate. */
  function Centre(total: nat): nat
    requires total >= 30
  {
    (total - 30 + 129) / 130
  }

  /** The totals for which no size is right. */
  predicate Unsettled(total: nat)
    requires total >= 30
  {
    var r := (total - 30) % 130;
    r == 1 || r == 2
  }

  lemma CentreMeans(total: nat)
    requires total >= 35
    ensures var c := Centre(total);
            c >= 1 && 130 * c - 129 <= total - 30 <= 130 * c
            && (Unsettled(total) <==> total - 30 <= 130 * c - 128)
  {
  }

  lemma NeededBounds(total: nat, spf: nat)
    requires total >= 30 + FATS * spf + 2
    ensures 128 * (Needed(total, spf) - 1) < total - 30 - 2 * spf <= 128 * Needed(total, spf)
  {
  }

  /** There is exactly one right size, or none. */
  lemma FixedExactly(total: nat, spf: nat)
    requires total >= 35
    ensures Fixed(total, spf) <==> spf == Centre(total) && !Unsettled(total)
  {
    CentreMeans(total);
    if total > RESERVED + FATS * spf {
      NeededBounds(total, spf);
      hide Needed, Centre, Unsettled;
    } else {
      hide Needed, Centre, Unsettled;
    }
  }

  /** How far a size is from the candidate. */
  predicate Near(total: nat, spf: nat, d: nat)
    requires total >= 30
  {
    Centre(total) <= spf + d && spf <= Centre(total) + d
  }

  /** A round shrinks the distance by a factor of 64. */
  function Shrunk(d: nat): nat { (129 + 2 * d) / 128 }

  lemma RoundShrinks(total: nat, spf: nat, d: nat)
    requires total >= 35 && total >= 30 + FATS * spf + 2 && Near(total, spf, d)
    ensures Near(total, Needed(total, spf), Shrunk(d))
  {
    CentreMeans(total);
    NeededBounds(total, spf);
    hide Needed, Centre, Unsettled;
  }

  /** The distance left after some rounds. */
  function Distance(rounds: nat): nat {
    if rounds == 0 then 0x400_0000 else Shrunk(Distance(rounds - 1))
  }

  lemma FiveRounds()
    ensures Distance(5) == 1
  {
    assert Distance(1) == 1048577;
    assert Distance(2) == 16385;
    assert Distance(3) == 257;
    assert Distance(4) == 5;
  }

  lemma {:induction false} StaysClose(rounds: nat)
    requires rounds >= 5
    ensures Distance(rounds) == 1
  {
    if rounds == 5 { FiveRounds(); } else { StaysClose(rounds - 1); }
  }

  /** Next to the candidate: two more rounds settle it, or never do. */
  lemma LastRounds(total: nat, spf: nat)
    requires total >= 35 && total >= 30 + FATS * spf + 2 && Near(total, spf, 1)
    ensures var c, n, r := Centre(total), Needed(total, spf), 130 * Centre(total) - (total - 30);
            && (!Unsettled(total) && spf == c ==> n == c)
            && (!Unsettled(total) && spf == c + 1 ==> n == if r >= 126 then c - 1 else c)
            && (!Unsettled(total) && spf + 1 == c ==> n == if r < 2 then c + 1 else c)
            && (Unsettled(total) ==> n != spf)
            && (Unsettled(total) && spf == c ==> n + 1 == c)
            && (Unsettled(total) && spf + 1 == c ==> n == c)
  {
    CentreMeans(total);
    NeededBounds(total, spf);
    hide Needed, Centre, Unsettled;
  }

  /** Every size the search comes to leaves data sectors. */
  lemma RoomLeft(total: nat, spf: nat)
    requires total >= 35 && spf >= 1 && (spf - 1) * 128 < total - 32
    ensures total > RESERVED + FATS * spf
    ensures var n := Needed(total, spf); n >= 1 && (n - 1) * 128 < total - 32
  {
    NeededBounds(total, spf);
    hide Needed;
  }

  /** Settled within the rounds there are. */
  predicate Settling(total: nat, spf: nat, rounds: nat)
    requires total >= 35
  {
    var c, r := Centre(total), 130 * Centre(total) - (total - 30);
    && Near(total, spf, Distance(rounds))
    && (!Unsettled(total) && rounds >= 6 ==> spf == c || (spf + 1 == c && r >= 126) || (spf == c + 1 && r < 2))
    && (!Unsettled(total) && rounds >= 7 ==> spf == c)
    && (!Unsettled(total) ==> rounds <= 8)
  }

  lemma SettlingStep(total: nat, spf: nat, rounds: nat)
    requires total >= 35 && total >= 30 + FATS * spf + 2 && Settling(total, spf, rounds)
    ensures Needed(total, spf) != spf ==> Settling(total, Needed(total, spf), rounds + 1)
    ensures Unsettled(total) ==> Needed(total, spf) != spf
  {
    RoundShrinks(total, spf, Distance(rounds));
    FixedExactly(total, spf);
    if rounds >= 5 {
      StaysClose(rounds);
      StaysClose(rounds + 1);
      LastRounds(total, spf);
    }
    CentreMeans(total);
    hide Needed, Centre, Unsettled, Distance, Shrunk;
  }

  lemma StartsNear(total: nat)
    requires 35 <= total < 0x1_0000_0000
    ensures Settling(total, 1, 0)
  {
    assert Distance(0) == 0x400_0000;
  }

  /** `compute_layout` succeeds exactly when there is room for data and some FAT size is right, and
      then finds that size. */
  method ComputeLayout(total: nat) returns (out: Outcome)
    requires total < 0x1_0000_0000
    ensures out.Layout? <==> total >= 35 && !Unsettled(total)
    ensures out.Layout? ==>
              && Fixed(total, out.g.spf) && out.g.clusters == total - 30 - 2 * out.g.spf && out.g.clusters >= 3
              && out.g.clusters <= out.g.spf * SECTOR / 4 && out.g.dataLba == RESERVED + FATS * out.g.spf
    ensures total < 35 ==> out == NoDataSectors
    ensures total >= 35 && Unsettled(total) ==> out == NoConvergence
  {
    var spf := 1;
    if total >= 35 { StartsNear(total); }
    var settled := false;
    for round := 0 to ROUNDS
      invariant !settled && spf >= 1
      invariant total < 35 ==> spf == 1 && round == 0
      invariant total >= 35 ==> (spf - 1) * 128 < total - 32 && Settling(total, spf, round)
    {
      if total <= RESERVED + FATS * spf {
        if total >= 35 { RoomLeft(total, spf); }
        return NoDataSectors;
      }
      RoomLeft(total, spf);
      SettlingStep(total, spf, round);
      var next := Needed(total, spf);
      if next == spf {
        settled := true;
        break;
      }
      spf := next;
    }
    if !settled {
      return NoConvergence;
    }
    FixedExactly(total, spf);
    NeededBounds(total, spf);
    var entries, clusters := spf * SECTOR / 4, total - RESERVED - FATS * spf + 2;
    out := Layout(Geometry(spf, clusters, RESERVED + FATS * spf));
    if clusters > entries {
      out := FatTooSmall;
    }
  }

  /** Of the sizes one can ask for in MiB, the builder refuses exactly every sixty-fifth, the first
      of them 64 MiB. */
  lemma RefusedSizes(mib: nat)
    requires mib > 0
    ensures mib * 2048 >= 35 && (Unsettled(mib * 2048) <==> mib % 65 == 64)
    ensures Unsettled(64 * 2048)
  {
    var q, m := mib / 65, mib % 65;
    assert mib == 65 * q + m;
    var k := (98 * m - 30) / 130;
    var r := 98 * m - 30 - 130 * k;
    Remainder(mib * 2048 - 30, 1024 * q + 15 * m + k, r);
    SixtyFour(m, k, r);
  }

  lemma Remainder(n: int, q: int, r: int)
    requires n == 130 * q + r && 0 <= r < 130
    ensures n % 130 == r
  {
  }

  lemma SixtyFour(m: nat, k: int, r: int)
    requires m < 65 && 98 * m - 30 == 130 * k + r && 0 <= r < 130
    ensures r == 1 || r == 2 <==> m == 64
  {
    assert r != 1;
    if r == 2 {
      assert 49 * m - 16 == 65 * k;
      assert m == 65 * (4 * k + 1 - 3 * m) - 1 + 0;
    }
  }

  // ------------------------------------------------------------- mounting

  const MAX_FAT_SECTORS := 4096
  const MAX_CLUSTER_SECTORS := 8

  datatype BootSector = BootSector(
    bytesPerSector: nat, sectorsPerCluster: nat, reserved: nat, fatCount: nat,
    total16: nat, total32: nat, spf: nat, root: nat)

  /** Fields as wide as the format makes them. */
  predicate Fields(b: BootSector) {
    && b.bytesPerSector < 0x1_0000 && b.sectorsPerCluster < 0x100 && b.reserved < 0x1_0000 && b.fatCount < 0x100
    && b.total16 < 0x1_0000 && b.total32 < 0x1_0000_0000 && b.spf < 0x1_0000_0000 && b.root < 0x1_0000_0000
  }

  datatype Mounted = Mounted(fatLba: nat, dataLba: nat, sectorsPerCluster: nat, clusters: nat, root: nat,
                             fatEntries: nat)

  function Sectors(b: BootSector): nat {
    if b.total16 != 0 then b.total16 else b.total32
  }

  /** Every cluster has an entry in the FAT and its sectors on the disk. */
  predicate Sound(m: Mounted, sectors: nat) {
    && 2 <= m.root < m.clusters <= m.fatEntries
    && forall c: nat | 2 <= c < m.clusters :: ClusterEnd(m, c) <= sectors
  }

  function ClusterEnd(m: Mounted, c: nat): int {
    m.dataLba + (c - 2) * m.sectorsPerCluster + m.sectorsPerCluster
  }

  /** Clusters the data sectors make up, counting from 2. */
  function ClustersOf(b: BootSector): int
    requires b.sectorsPerCluster > 0
  {
    (Sectors(b) - b.reserved - b.fatCount * b.spf) / b.sectorsPerCluster + 2
  }

  predicate Mountable(b: BootSector) {
    && b.bytesPerSector == SECTOR && 0 < b.spf <= MAX_FAT_SECTORS && 0 < b.sectorsPerCluster <= MAX_CLUSTER_SECTORS
    && b.fatCount > 0 && b.reserved > 0 && b.reserved + b.fatCount * b.spf < Sectors(b)
    && 2 <= b.root < ClustersOf(b) <= b.spf * 128
  }

  /** The geometry part of `fat32_mount`, relative to the partition's start. */
  method Mount(b: BootSector) returns (m: Option<Mounted>)
    requires Fields(b)
    ensures m.Some? <==> Mountable(b)
    ensures m.Some? ==>
              Sound(m.value, Sectors(b)) && m.value.root == b.root
              && m.value.sectorsPerCluster == b.sectorsPerCluster
                        && m.value.fatLba == b.reserved && m.value.dataLba == b.reserved + b.fatCount * b.spf
                        && m.value.clusters == ClustersOf(b) && m.value.fatEntries == b.spf * 128
  {
    if b.bytesPerSector != SECTOR {
      return None;
    }
    if b.spf == 0 || b.spf > MAX_FAT_SECTORS {
      return None;
    }
    if b.sectorsPerCluster == 0 || b.sectorsPerCluster > MAX_CLUSTER_SECTORS {
      return None;
    }
    if b.fatCount == 0 || b.reserved == 0 {
      return None;
    }
    if b.root < 2 {
      return None;
    }
    var total := if b.total16 != 0 then b.total16 else b.total32;
    NoWrap(b);
    if total == 0 {
      return None;
    }
    m := Measure(b, total, b.fatCount * b.spf % 0x1_0000_0000);
  }

  /** The sums of `fat32_mount`. */
  method Measure(b: BootSector, total: nat, fatArea: nat) returns (m: Option<Mounted>)
    requires total == Sectors(b) && fatArea == b.fatCount * b.spf && b.sectorsPerCluster > 0
    requires b.reserved + fatArea < 0x1_0000_0000 && b.spf <= MAX_FAT_SECTORS && b.root >= 2
    ensures m.Some? <==> b.reserved + b.fatCount * b.spf < Sectors(b) && b.root < ClustersOf(b) <= b.spf * 128
    ensures m.Some? ==>
              Sound(m.value, Sectors(b)) && m.value.root == b.root
              && m.value.sectorsPerCluster == b.sectorsPerCluster
                        && m.value.fatLba == b.reserved && m.value.dataLba == b.reserved + b.fatCount * b.spf
                        && m.value.clusters == ClustersOf(b) && m.value.fatEntries == b.spf * 128
  {
    var nonData := (b.reserved + fatArea) % 0x1_0000_0000;
    if nonData >= total {
      return None;
    }
    var dataSectors := total - nonData;
    var clusters := dataSectors / b.sectorsPerCluster + 2;
    assert clusters == ClustersOf(b);
    var entries := b.spf * SECTOR % 0x1_0000_0000 / 4;
    assert entries == b.spf * 128;
    DataFits(Mounted(b.reserved, nonData, b.sectorsPerCluster, clusters, b.root, entries), dataSectors, total);
    hide ClustersOf, Sectors, ClusterEnd;
    if clusters > entries {
      return None;
    }
    if b.root >= clusters {
      return None;
    }
    m := Some(Mounted(b.reserved, nonData, b.sectorsPerCluster, clusters, b.root, entries));
  }

  /** With at most 4096 FAT sectors no product leaves 32 bits. */
  lemma NoWrap(b: BootSector)
    requires Fields(b) && b.spf <= MAX_FAT_SECTORS
    ensures b.fatCount * b.spf % 0x1_0000_0000 == b.fatCount * b.spf
    ensures b.reserved + b.fatCount * b.spf < 0x1_0000_0000
  {
    assert 0 <= b.fatCount * b.spf <= 255 * 4096 by { SmallProduct(b.fatCount, b.spf); }
  }

  lemma SmallProduct(x: nat, y: nat)
    requires x <= 255 && y <= 4096
    ensures 0 <= x * y <= 255 * 4096
  {
    assert x * y <= 255 * y;
  }

  lemma DataFits(m: Mounted, dataSectors: nat, total: nat)
    requires m.sectorsPerCluster > 0 && m.clusters == dataSectors / m.sectorsPerCluster + 2
             && m.dataLba + dataSectors == total
    ensures forall c: nat | 2 <= c < m.clusters :: ClusterEnd(m, c) <= total
    ensures total < m.dataLba + (m.clusters - 2 + 1) * m.sectorsPerCluster
  {
    var s, q := m.sectorsPerCluster, dataSectors / m.sectorsPerCluster;
    assert q * s <= dataSectors < (q + 1) * s;
    forall c: nat | 2 <= c < m.clusters ensures ClusterEnd(m, c) <= total {
      assert (c - 2) * s + s == (c - 1) * s;
      assert (c - 1) * s <= q * s by { Grows(c - 1, q, s); }
    }
  }

  lemma Grows(x: nat, y: nat, s: nat)
    requires x <= y
    ensures x * s <= y * s
  {
  }

  /** Every geometry within the kernel's limits is mounted, with as many clusters as the data area
      holds: up to eight sectors a cluster, any number of FAT copies and of reserved sectors. */
  lemma MountsEvery(reserved: nat, fats: nat, spf: nat, spc: nat, clusters: nat, rest: nat, root: nat, b: BootSector)
    requires 1 <= reserved && 1 <= fats && 1 <= spf <= 4096 && 1 <= spc <= 8 && rest < spc
    requires 2 <= root < clusters + 2 <= 128 * spf
    requires b.bytesPerSector == 512 && b.sectorsPerCluster == spc && b.reserved == reserved && b.fatCount == fats
             && b.spf == spf && b.root == root
    requires var total := reserved + fats * spf + clusters * spc + rest;
             b.total16 == total || (b.total16 == 0 && b.total32 == total)
    ensures Mountable(b) && ClustersOf(b) == clusters + 2
  {
    var data := clusters * spc + rest;
    assert clusters >= 1;
    assert clusters * spc >= spc by { Grows(1, clusters, spc); }
    assert data / spc == clusters by { Whole(clusters, spc, rest); }
    assert Sectors(b) - b.reserved - b.fatCount * b.spf == data;
  }

  lemma Whole(q: nat, s: nat, r: nat)
    requires r < s
    ensures (q * s + r) / s == q
  {
    var x := q * s + r;
    var p := x / s;
    assert p * s <= x < (p + 1) * s;
    if p < q { Grows(p + 1, q, s); }
    if q < p { Grows(q + 1, p, s); }
  }

  /** And no other is: a boot sector that is mounted has such a geometry. */
  lemma MountsOnly(b: BootSector)
    requires Mountable(b)
    ensures 1 <= b.reserved && 1 <= b.fatCount && 1 <= b.spf <= 4096 && 1 <= b.sectorsPerCluster <= 8
            && b.bytesPerSector == 512
    ensures var clusters, rest := ClustersOf(b) - 2,
            (Sectors(b) - b.reserved - b.fatCount * b.spf) % b.sectorsPerCluster;
            && clusters >= 1 && 2 <= b.root < clusters + 2 <= 128 * b.spf
            && Sectors(b) == b.reserved + b.fatCount * b.spf + clusters * b.sectorsPerCluster + rest
  {
    var s, data := b.sectorsPerCluster, Sectors(b) - b.reserved - b.fatCount * b.spf;
    assert data == data / s * s + data % s;
  }

  /** The boot sector the builder writes. */
  function Written(total: nat, g: Geometry): BootSector {
    BootSector(SECTOR, 1, RESERVED, FATS, 0, total, g.spf, ROOT)
  }

  /** The kernel mounts what the builder laid out, with the same clusters in the same place, as long
      as the image is no larger than 532510 sectors (260 MiB): beyond that its FAT table is too
      small to hold the image's. */
  method BuildThenMount(total: nat) returns (out: Outcome, m: Option<Mounted>)
    requires total < 0x1_0000_0000
    ensures out.Layout? ==> (m.Some? <==> total <= 532510)
    ensures out.Layout? && m.Some? ==>
              && m.value.clusters == out.g.clusters && m.value.dataLba == out.g.dataLba && m.value.root == ROOT
              && m.value.fatLba == RESERVED && m.value.fatEntries == out.g.spf * SECTOR / 4
    ensures !out.Layout? ==> m.None?
  {
    out := ComputeLayout(total);
    if !out.Layout? {
      return out, None;
    }
    SizeLimit(total, out.g.spf);
    BuiltClusters(total, out.g);
    m := Mount(Written(total, out.g));
  }

  lemma BuiltClusters(total: nat, g: Geometry)
    requires total >= 35 && Fixed(total, g.spf) && total < 0x1_0000_0000
    ensures ClustersOf(Written(total, g)) == total - 30 - 2 * g.spf && Sectors(Written(total, g)) == total
    ensures Fields(Written(total, g))
    ensures Mountable(Written(total, g)) <==> g.spf <= MAX_FAT_SECTORS
  {
    FixedExactly(total, g.spf);
    CentreMeans(total);
    NeededBounds(total, g.spf);
    hide Needed, Unsettled, Centre;
  }

  lemma SizeLimit(total: nat, spf: nat)
    requires total >= 35 && Fixed(total, spf)
    ensures spf <= MAX_FAT_SECTORS <==> total <= 532510
    ensures spf >= 1 && (total < 0x1_0000_0000 ==> spf < 0x1_0000_0000)
  {
    FixedExactly(total, spf);
    CentreMeans(total);
    hide Fixed, Unsettled;
  }
}
