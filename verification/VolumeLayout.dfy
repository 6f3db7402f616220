/** Where the regions of a volume lie: the FATs, the root directory and the clusters (src/fs/fat/fat16.c). */
module VolumeLayout {
  import opened DiskStream
  import opened FatChain

  // ---------- the FATs ----------

  /** The entry of a cluster lies in the sector and at the offset of section 4.1 of the Microsoft FAT specification. */
  lemma FatEntryOnDisk(disk: Sectors, v: Volume, c: nat)
    ensures var sector, at := disk(v.reserved + c / 256), 2 * (c % 256);
            var low: int, high: int := sector[at], sector[at + 1];
            FatEntry(disk, v, c) == low + 256 * high
  {
    var p := v.reserved * 512 + 2 * c;
    assert p / 512 == v.reserved + c / 256 && p % 512 == 2 * (c % 256);
    assert (p + 1) / 512 == v.reserved + c / 256 && (p + 1) % 512 == 2 * (c % 256) + 1;
  }

  /** On the system's own volume the entry of cluster 3 is in the first sector behind the 200 of the kernel. */
  lemma BootFatEntry(disk: Sectors)
    ensures var low: int, high: int := disk(200)[6], disk(200)[7]; FatEntry(disk, BOOT_VOLUME, 3) == low + 256 * high
  {
    FatEntryOnDisk(disk, BOOT_VOLUME, 3);
  }

  /** The copies of the FAT follow one another, and the root directory follows the last. */
  lemma RootFollowsFats(v: Volume, copy: nat, c: nat)
    requires copy < v.fatCopies && c < 256 * v.sectorsPerFat
    ensures FatPos(v, 0) == v.reserved * 512
    ensures FatPos(v, 256 * (copy * v.sectorsPerFat) + c) + 2 <= RootSector(v) * 512
    ensures FatPos(v, 256 * (v.fatCopies * v.sectorsPerFat)) == RootSector(v) * 512
  {
    var n := v.sectorsPerFat;
    MultiplesGrow(copy + 1, v.fatCopies, n);
    assert (copy + 1) * n == copy * n + n;
  }

  // ---------- the root directory and the clusters ----------

  /**
   The clusters begin where the root directory's entries end exactly when these fill whole sectors, and
   else too early.
   */
  lemma ClustersFollowRoot(v: Volume)
    ensures ClusterPos(v, 2) == RootSector(v) * 512 + 32 * v.rootEntries <==> v.rootEntries % 16 == 0
    ensures v.rootEntries % 16 != 0
            ==> ClusterPos(v, 2) < RootSector(v) * 512 + 32 * v.rootEntries < ClusterPos(v, 2) + 512
  {
  }

  /** Each cluster begins where the one before it ends. */
  lemma ClustersTile(v: Volume, c: int)
    ensures ClusterPos(v, c + 1) == ClusterPos(v, c) + 512 * v.sectorsPerCluster
    ensures ClusterSize(v) == 512 * v.sectorsPerCluster
  {
    assert (c + 1 - 2) * v.sectorsPerCluster == (c - 2) * v.sectorsPerCluster + v.sectorsPerCluster;
  }

  /** On the system's own volume: the root directory in sectors 712 to 715, then clusters of 64 KB. */
  lemma BootLayout()
    ensures RootSector(BOOT_VOLUME) == 712 && ClusterPos(BOOT_VOLUME, 2) == 716 * 512
    ensures ClusterPos(BOOT_VOLUME, 3) == 716 * 512 + 65536 && ClusterSize(BOOT_VOLUME) == 65536
  {
    ClustersTile(BOOT_VOLUME, 2);
  }
}
