/** Cluster chains of a FAT16 volume and what reading along them means (src/fs/fat/fat16.c, seen on values). */
module FatChain {
  import opened Config
  import opened Wrappers
  import opened DiskStream

  const FAT_ENTRY_SIZE := 2
  const DIRECTORY_ENTRY_SIZE := 32

  /** The boot-sector fields that locate the regions of the volume. */
  datatype Volume = Volume(reserved: nat, fatCopies: nat, sectorsPerFat: nat, rootEntries: nat, sectorsPerCluster: nat)

  ghost predicate ValidVolume(v: Volume) {
    v.reserved < 0x1_0000 && v.fatCopies < 0x100 && v.sectorsPerFat < 0x1_0000 && v.rootEntries < 0x1_0000
    && 1 <= v.sectorsPerCluster < 0x100
  }

  function RootSector(v: Volume): nat {
    v.reserved + v.fatCopies * v.sectorsPerFat
  }

  /** Where the code lets the data region start: the root directory's size rounded down to sectors. */
  function EndSector(v: Volume): nat {
    RootSector(v) + v.rootEntries * DIRECTORY_ENTRY_SIZE / SECTOR_SIZE
  }

  /** FirstDataSector of section 6.7 of the Microsoft FAT specification, which rounds up. */
  function FirstDataSector(v: Volume): nat {
    RootSector(v) + (v.rootEntries * DIRECTORY_ENTRY_SIZE + SECTOR_SIZE - 1) / SECTOR_SIZE
  }

  /** The code and the specification agree exactly when the root directory fills whole sectors. */
  lemma DataRegionMatches(v: Volume)
    ensures EndSector(v) == FirstDataSector(v) <==> v.rootEntries % 16 == 0
  {
  }

  function ClusterSize(v: Volume): (n: nat)
    ensures v.sectorsPerCluster >= 1 ==> n >= SECTOR_SIZE
  {
    v.sectorsPerCluster * SECTOR_SIZE
  }

  /** Which cluster of a file byte `x` is in, counting from 0 ... */
  function Index(v: Volume, x: nat): nat
    requires v.sectorsPerCluster >= 1
  {
    x / ClusterSize(v)
  }

  /** ... and where in that cluster. */
  function Within(v: Volume, x: nat): (r: nat)
    requires v.sectorsPerCluster >= 1
    ensures r < ClusterSize(v)
  {
    x % ClusterSize(v)
  }

  /** Byte position of a cluster: fat16_cluster_to_sector in bytes. */
  function ClusterPos(v: Volume, c: int): int {
    (EndSector(v) + (c - 2) * v.sectorsPerCluster) * SECTOR_SIZE
  }

  lemma NextClusterPos(v: Volume, c: int, d: int)
    requires v.sectorsPerCluster >= 1
    ensures ClusterPos(v, d) == ClusterPos(v, c) + ClusterSize(v) <==> d == c + 1
  {
    var n := v.sectorsPerCluster;
    assert (d - 2) * n - (c - 2) * n == (d - c) * n;
    if d - c >= 2 {
      assert (d - c) * n >= 2 * n;
    } else if d - c <= 0 {
      assert (d - c) * n <= 0;
    }
  }

  function FatPos(v: Volume, c: nat): nat {
    v.reserved * SECTOR_SIZE + c * FAT_ENTRY_SIZE
  }

  /** A FAT entry is a little-endian 16-bit word. */
  function FatEntry(disk: Sectors, v: Volume, c: nat): (e: nat)
    ensures e < 0x1_0000
  {
    ByteAt(disk, FatPos(v, c)) + 256 * ByteAt(disk, FatPos(v, c) + 1)
  }

  /** The entry values that stop the walk; the code compares against their 12-bit forms. */
  predicate IsMarker(e: nat) {
    e == 0xFF8 || e == 0xFFF || e == 0xFF7 || e == 0xFF0 || e == 0xFF6 || e == 0
  }

  /** The cluster `k` steps along the chain from `c`; none once an entry on the way is a marker. */
  function Walk(disk: Sectors, v: Volume, c: nat, k: nat): Option<nat>
    decreases k
  {
    if k == 0 then Some(c)
    else
      var e := FatEntry(disk, v, c);
      if IsMarker(e) then None else Walk(disk, v, e, k - 1)
  }

  /** A chain that reaches cluster `k` reaches every one before it. */
  lemma {:induction false} WalkIsPrefixClosed(disk: Sectors, v: Volume, c: nat, j: nat, k: nat)
    requires j <= k && Walk(disk, v, c, k).Some?
    ensures Walk(disk, v, c, j).Some?
    decreases k
  {
    if j > 0 {
      WalkIsPrefixClosed(disk, v, FatEntry(disk, v, c), j - 1, k - 1);
    }
  }

  // ---------- the logical file ----------

  /** Where byte `x` of the file that starts at cluster `c` lies on the disk. */
  function LogicalPos(disk: Sectors, v: Volume, c: nat, x: nat): int
    requires v.sectorsPerCluster >= 1 && Walk(disk, v, c, Index(v, x)).Some?
  {
    ClusterPos(v, Walk(disk, v, c, Index(v, x)).value) + Within(v, x)
  }

  /** The chain holds at least the first `n` bytes. */
  ghost predicate Covers(disk: Sectors, v: Volume, c: nat, n: nat) {
    && v.sectorsPerCluster >= 1
    && forall x :: 0 <= x < n ==> Walk(disk, v, c, Index(v, x)).Some?
  }

  /** Bytes [offset, offset + n) of the clusters of the chain joined in order. */
  ghost function LogicalBytes(disk: Sectors, v: Volume, c: nat, offset: nat, n: nat): (s: seq<byte>)
    requires Covers(disk, v, c, offset + n)
    ensures |s| == n
  {
    seq<byte>(n, i requires 0 <= i < n => LogicalByte(disk, v, c, offset + i))
  }

  ghost function LogicalByte(disk: Sectors, v: Volume, c: nat, x: nat): byte
    requires v.sectorsPerCluster >= 1 && Walk(disk, v, c, Index(v, x)).Some?
  {
    ByteAt(disk, LogicalPos(disk, v, c, x))
  }

  // ---------- what the code reads ----------

  function Min(a: nat, b: nat): nat {
    if a > b then b else a
  }

  /** fat16_read_internal: the bytes that reach the buffer, and the result. */
  ghost function ReadBytes(disk: Sectors, v: Volume, c: nat, offset: nat, total: nat): (r: (seq<byte>, int))
    requires v.sectorsPerCluster >= 1
    ensures |r.0| <= total && (r.1 == 0 ==> |r.0| == total) && (r.1 == 0 || r.1 == -EIO)
    decreases total
  {
    match Walk(disk, v, c, Index(v, offset))
    case None => ([], -EIO)
    case Some(cluster) =>
      var n := Min(total, ClusterSize(v));
      var bytes := Slice(disk, ClusterPos(v, cluster) + Within(v, offset), n);
      if total - n > 0 then
        var (rest, res) := ReadBytes(disk, v, c, offset + n, total - n);
        (bytes + rest, res)
      else (bytes, 0)
  }

  /** One step of a read, and what is left to do after it. */
  lemma ReadBytesStep(disk: Sectors, v: Volume, c: nat, offset: nat, total: nat, cluster: nat)
    requires v.sectorsPerCluster >= 1 && Walk(disk, v, c, Index(v, offset)) == Some(cluster)
    ensures var n := Min(total, ClusterSize(v));
            var p := ClusterPos(v, cluster) + Within(v, offset);
            ReadBytes(disk, v, c, offset, total)
            == if total > n then
                 (Slice(disk, p, n) + ReadBytes(disk, v, c, offset + n, total - n).0,
                   ReadBytes(disk, v, c, offset + n, total - n).1)
               else (Slice(disk, p, n), 0)
  {
    hide Walk, Index, Within, Slice, ClusterPos;
  }

  // ---------- arithmetic of positions inside clusters ----------

  lemma Quotient(x: int, size: nat, q: int, r: int)
    requires size >= 1 && x == q * size + r && 0 <= r < size
    ensures x / size == q && x % size == r
  {
    var d := x / size - q;
    assert d * size == r - x % size;
    Multiples(d, size);
  }

  lemma Multiples(d: int, size: nat)
    ensures d >= 1 ==> d * size >= size
    ensures d <= -1 ==> d * size <= -(size as int)
  {
  }

  lemma WithinFirst(v: Volume, i: nat)
    requires v.sectorsPerCluster >= 1 && i < ClusterSize(v)
    ensures Index(v, i) == 0 && Within(v, i) == i
  {
    Quotient(i, ClusterSize(v), 0, i);
  }

  lemma OneClusterOn(v: Volume, x: nat)
    requires v.sectorsPerCluster >= 1
    ensures Index(v, x + ClusterSize(v)) == Index(v, x) + 1 && Within(v, x + ClusterSize(v)) == Within(v, x)
  {
    var size := ClusterSize(v);
    Quotient(x + size, size, x / size + 1, x % size);
  }

  /** Adding positions: the parts inside a cluster either fit together or carry into the next one. */
  lemma SumOfPositions(v: Volume, x: nat, i: nat)
    requires v.sectorsPerCluster >= 1
    ensures var r := Within(v, x) + Within(v, i);
            if r < ClusterSize(v) then Index(v, x + i) == Index(v, x) + Index(v, i) && Within(v, x + i) == r
            else Index(v, x + i) == Index(v, x) + Index(v, i) + 1 && Within(v, x + i) == r - ClusterSize(v)
  {
    var size := ClusterSize(v);
    var q, r := x / size + i / size, x % size + i % size;
    assert x + i == q * size + r by {
      assert q * size == x / size * size + i / size * size;
    }
    if r < size {
      Quotient(x + i, size, q, r);
    } else {
      Quotient(x + i, size, q + 1, r - size);
    }
  }

  lemma IndexGrows(v: Volume, a: nat, b: nat)
    requires v.sectorsPerCluster >= 1 && a <= b
    ensures Index(v, a) <= Index(v, b)
  {
    hide Index, Within;
    SumOfPositions(v, a, b - a);
    assert a + (b - a) == b;
  }

  // ---------- what the code reads, exactly ----------

  /** The chain position of the cluster from which the code takes byte `i` of a read. */
  function CodeIndex(v: Volume, offset: nat, i: nat): nat
    requires v.sectorsPerCluster >= 1
  {
    Index(v, offset) + Index(v, i)
  }

  /** Where the code finds byte `i` of a read: it stays in the cluster its step started in. */
  function CodePos(disk: Sectors, v: Volume, c: nat, offset: nat, i: nat): int
    requires v.sectorsPerCluster >= 1 && Walk(disk, v, c, CodeIndex(v, offset, i)).Some?
  {
    ClusterPos(v, Walk(disk, v, c, CodeIndex(v, offset, i)).value) + Within(v, offset) + Within(v, i)
  }

  /** The last cluster that a read of `total` bytes walks to. */
  function LastCluster(v: Volume, offset: nat, total: nat): nat
    requires v.sectorsPerCluster >= 1
  {
    CodeIndex(v, offset, if total == 0 then 0 else total - 1)
  }

  /** A read succeeds exactly when the walk to its last cluster meets no marker. */
  lemma {:induction false} ReadSucceedsWhen(disk: Sectors, v: Volume, c: nat, offset: nat, total: nat)
    requires v.sectorsPerCluster >= 1
    ensures ReadBytes(disk, v, c, offset, total).1
         == if Walk(disk, v, c, LastCluster(v, offset, total)).Some? then 0 else -EIO
    decreases total
  {
    hide Index, Within, Walk, Slice, ClusterPos;
    var size := ClusterSize(v);
    var last := LastCluster(v, offset, total);
    if total > size {
      OneClusterOn(v, offset);
      OneClusterOn(v, total - 1 - size);
      ReadSucceedsWhen(disk, v, c, offset + size, total - size);
    } else {
      WithinFirst(v, if total == 0 then 0 else total - 1);
    }
    if Walk(disk, v, c, last).Some? {
      WalkIsPrefixClosed(disk, v, c, Index(v, offset), last);
    }
  }

  /** `b` is the byte that the code's addressing finds for byte `i` of a read. */
  ghost predicate FoundAt(disk: Sectors, v: Volume, c: nat, offset: nat, i: nat, b: byte)
    requires v.sectorsPerCluster >= 1
  {
    && Walk(disk, v, c, CodeIndex(v, offset, i)).Some?
    && b == ByteAt(disk, CodePos(disk, v, c, offset, i))
  }

  lemma FoundOneClusterOn(disk: Sectors, v: Volume, c: nat, offset: nat, i: nat, b: byte)
    requires v.sectorsPerCluster >= 1 && i >= ClusterSize(v)
    requires FoundAt(disk, v, c, offset + ClusterSize(v), i - ClusterSize(v), b)
    ensures FoundAt(disk, v, c, offset, i, b)
  {
    hide Walk, ByteAt, ClusterPos, Index, Within;
    OneClusterOn(v, offset);
    OneClusterOn(v, i - ClusterSize(v));
  }

  lemma FoundInFirst(disk: Sectors, v: Volume, c: nat, offset: nat, i: nat, n: nat)
    requires v.sectorsPerCluster >= 1 && i < n <= ClusterSize(v) && Walk(disk, v, c, Index(v, offset)).Some?
    ensures var p := ClusterPos(v, Walk(disk, v, c, Index(v, offset)).value) + Within(v, offset);
            FoundAt(disk, v, c, offset, i, Slice(disk, p, n)[i])
  {
    hide Walk, ByteAt, ClusterPos, Index, Within;
    WithinFirst(v, i);
  }

  /** Every byte of the buffer is the one that the code's addressing finds. */
  lemma {:induction false} ReadBytesAt(disk: Sectors, v: Volume, c: nat, offset: nat, total: nat, bytes: seq<byte>,
                                       i: nat)
    requires v.sectorsPerCluster >= 1 && bytes == ReadBytes(disk, v, c, offset, total).0 && i < |bytes|
    ensures FoundAt(disk, v, c, offset, i, bytes[i])
    decreases total
  {
    hide FoundAt, ByteAt, ClusterPos, Walk, Slice, Index, Within;
    var n := Min(total, ClusterSize(v));
    if i < ClusterSize(v) {
      FoundInFirst(disk, v, c, offset, i, n);
    } else {
      var rest := ReadBytes(disk, v, c, offset + n, total - n).0;
      ReadBytesAt(disk, v, c, offset + n, total - n, rest, i - n);
      FoundOneClusterOn(disk, v, c, offset, i, rest[i - n]);
    }
  }

  // ---------- when the code reads the file ----------

  /** The chain goes on from its cluster number `k` to the physically next cluster. */
  predicate NextIsAdjacent(disk: Sectors, v: Volume, c: nat, k: nat) {
    var a, b := Walk(disk, v, c, k), Walk(disk, v, c, k + 1);
    a.Some? && b.Some? && b.value == a.value + 1
  }

  /** Taking byte `i` of the read, the code has run past the end of the cluster its step started in. */
  predicate PastEnd(v: Volume, offset: nat, i: nat)
    requires v.sectorsPerCluster >= 1
  {
    Within(v, offset) + Within(v, i) >= ClusterSize(v)
  }

  /** Wherever a step of the read runs past the end of its cluster, the chain goes on to the adjacent one. */
  ghost predicate NoGap(disk: Sectors, v: Volume, c: nat, offset: nat, total: nat)
    requires v.sectorsPerCluster >= 1
  {
    forall i: nat :: i < total && PastEnd(v, offset, i) ==> NextIsAdjacent(disk, v, c, CodeIndex(v, offset, i))
  }

  ghost predicate PositionMatches(disk: Sectors, v: Volume, c: nat, offset: nat, i: nat)
    requires v.sectorsPerCluster >= 1 && Walk(disk, v, c, Index(v, offset + i)).Some?
  {
    && Walk(disk, v, c, CodeIndex(v, offset, i)).Some?
    && CodePos(disk, v, c, offset, i) == LogicalPos(disk, v, c, offset + i)
  }

  lemma PositionMatchesWhen(disk: Sectors, v: Volume, c: nat, offset: nat, i: nat)
    requires v.sectorsPerCluster >= 1 && Walk(disk, v, c, Index(v, offset + i)).Some?
    ensures PositionMatches(disk, v, c, offset, i)
        <==> (PastEnd(v, offset, i) ==> NextIsAdjacent(disk, v, c, CodeIndex(v, offset, i)))
  {
    hide Walk, ClusterPos, Index, Within;
    SumOfPositions(v, offset, i);
    if PastEnd(v, offset, i) {
      var k := CodeIndex(v, offset, i);
      WalkIsPrefixClosed(disk, v, c, k, k + 1);
      NextClusterPos(v, Walk(disk, v, c, k).value, Walk(disk, v, c, k + 1).value);
    }
  }

  /**
   The code addresses the right bytes of the file exactly when every cluster end it runs past
   is followed by the adjacent cluster: the per-step length ignores the offset in the cluster.
   */
  lemma PositionsMatchExactlyWhen(disk: Sectors, v: Volume, c: nat, offset: nat, total: nat)
    requires Covers(disk, v, c, offset + total)
    ensures (forall i: nat :: i < total ==> PositionMatches(disk, v, c, offset, i))
            <==> NoGap(disk, v, c, offset, total)
  {
    hide Walk, ClusterPos, PositionMatches, NextIsAdjacent, Index, Within, PastEnd, CodeIndex;
    forall i: nat | i < total
      ensures Walk(disk, v, c, Index(v, offset + i)).Some?
      ensures PositionMatches(disk, v, c, offset, i)
          <==> (PastEnd(v, offset, i) ==> NextIsAdjacent(disk, v, c, CodeIndex(v, offset, i)))
    {
      PositionMatchesWhen(disk, v, c, offset, i);
    }
  }

  lemma LastClusterIsCovered(disk: Sectors, v: Volume, c: nat, offset: nat, total: nat)
    requires Covers(disk, v, c, offset + total) && total >= 1
    ensures Walk(disk, v, c, LastCluster(v, offset, total)).Some?
  {
    hide Walk, Index, Within;
    SumOfPositions(v, offset, total - 1);
    WalkIsPrefixClosed(disk, v, c, LastCluster(v, offset, total), Index(v, offset + total - 1));
  }

  lemma ByteMatches(disk: Sectors, v: Volume, c: nat, offset: nat, i: nat, b: byte)
    requires v.sectorsPerCluster >= 1 && Walk(disk, v, c, Index(v, offset + i)).Some?
    requires FoundAt(disk, v, c, offset, i, b) && PositionMatches(disk, v, c, offset, i)
    ensures b == LogicalByte(disk, v, c, offset + i)
  {
    hide Walk, ByteAt, ClusterPos, Index, Within;
  }

  /** Read without a gap, the buffer holds exactly the file's bytes, in order. */
  lemma ReadRefinesFile(disk: Sectors, v: Volume, c: nat, offset: nat, total: nat)
    requires Covers(disk, v, c, offset + total) && total >= 1
    requires NoGap(disk, v, c, offset, total)
    ensures ReadBytes(disk, v, c, offset, total) == (LogicalBytes(disk, v, c, offset, total), 0)
  {
    hide Walk, PositionMatches, ByteAt, NextIsAdjacent, CodePos, LogicalPos, ReadBytes, Index, Within, FoundAt,
      LogicalByte, NoGap;
    LastClusterIsCovered(disk, v, c, offset, total);
    ReadSucceedsWhen(disk, v, c, offset, total);
    var bytes := ReadBytes(disk, v, c, offset, total).0;
    PositionsMatchExactlyWhen(disk, v, c, offset, total);
    forall i: nat | i < total
      ensures bytes[i] == LogicalBytes(disk, v, c, offset, total)[i]
    {
      ReadBytesAt(disk, v, c, offset, total, bytes, i);
      ByteMatches(disk, v, c, offset, i, bytes[i]);
    }
    assert bytes == LogicalBytes(disk, v, c, offset, total);
  }

  /** No step crosses a cluster end when the read starts at one, or ends by the next one. */
  lemma AlignedMeansNoGap(disk: Sectors, v: Volume, c: nat, offset: nat, total: nat)
    requires v.sectorsPerCluster >= 1
    requires Within(v, offset) == 0 || Within(v, offset) + total <= ClusterSize(v)
    ensures NoGap(disk, v, c, offset, total)
  {
    hide Walk, NextIsAdjacent, Index, Within;
    forall i: nat | i < total
      ensures !PastEnd(v, offset, i)
    {
      if i < ClusterSize(v) {
        WithinFirst(v, i);
      }
    }
  }

  /** A chain that is physically contiguous up to the last byte has no gap, whatever the offset. */
  lemma ContiguousMeansNoGap(disk: Sectors, v: Volume, c: nat, offset: nat, total: nat)
    requires v.sectorsPerCluster >= 1 && total >= 1
    requires forall k: nat :: k < Index(v, offset + total - 1) ==> NextIsAdjacent(disk, v, c, k)
    ensures NoGap(disk, v, c, offset, total)
  {
    hide Walk, NextIsAdjacent, Index, Within;
    forall i: nat | i < total && PastEnd(v, offset, i)
      ensures NextIsAdjacent(disk, v, c, CodeIndex(v, offset, i))
    {
      SumOfPositions(v, offset, i);
      IndexGrows(v, offset + i, offset + total - 1);
    }
  }

  lemma ReachedMeansCovered(disk: Sectors, v: Volume, c: nat, n: nat)
    requires v.sectorsPerCluster >= 1 && n >= 1 && Walk(disk, v, c, Index(v, n - 1)).Some?
    ensures Covers(disk, v, c, n)
  {
    hide Walk, Index;
    forall x: nat | x < n
      ensures Walk(disk, v, c, Index(v, x)).Some?
    {
      IndexGrows(v, x, n - 1);
      WalkIsPrefixClosed(disk, v, c, Index(v, x), Index(v, n - 1));
    }
  }

  /**
   Reads from a cluster boundary, for chains of any length: all of the requested bytes of the
   file, or -EIO exactly when the chain ends, at a marker, before covering them.
   */
  lemma AlignedRead(disk: Sectors, v: Volume, c: nat, offset: nat, total: nat)
    requires v.sectorsPerCluster >= 1 && Within(v, offset) == 0 && total >= 1
    ensures if Walk(disk, v, c, Index(v, offset + total - 1)).Some?
            then Covers(disk, v, c, offset + total)
              && ReadBytes(disk, v, c, offset, total) == (LogicalBytes(disk, v, c, offset, total), 0)
            else ReadBytes(disk, v, c, offset, total).1 == -EIO
  {
    hide Walk, Index, Within, ReadBytes, NoGap, Covers, LogicalByte;
    SumOfPositions(v, offset, total - 1);
    ReadSucceedsWhen(disk, v, c, offset, total);
    if Walk(disk, v, c, Index(v, offset + total - 1)).Some? {
      ReachedMeansCovered(disk, v, c, offset + total);
      AlignedMeansNoGap(disk, v, c, offset, total);
      ReadRefinesFile(disk, v, c, offset, total);
    }
  }

  /** Reads of a physically contiguous file, from any offset. */
  lemma ContiguousRead(disk: Sectors, v: Volume, c: nat, offset: nat, total: nat)
    requires v.sectorsPerCluster >= 1 && total >= 1
    requires forall k: nat :: k < Index(v, offset + total - 1) ==> NextIsAdjacent(disk, v, c, k)
    ensures Covers(disk, v, c, offset + total)
    ensures ReadBytes(disk, v, c, offset, total) == (LogicalBytes(disk, v, c, offset, total), 0)
  {
    hide Index, Within, ReadBytes, NoGap, Covers, LogicalByte;
    var last := Index(v, offset + total - 1);
    assert Walk(disk, v, c, last).Some? by {
      assert last > 0 ==> NextIsAdjacent(disk, v, c, last - 1);
    }
    hide Walk, NextIsAdjacent;
    ReachedMeansCovered(disk, v, c, offset + total);
    ContiguousMeansNoGap(disk, v, c, offset, total);
    ReadRefinesFile(disk, v, c, offset, total);
  }

  // ---------- the end of a chain ----------

  /** The end marks of section 4 of the Microsoft FAT specification for FAT16, which formatting tools write. */
  predicate IsEndMark(e: nat) {
    0xFFF8 <= e <= 0xFFFF
  }

  /** The walk from a later cluster of the chain. */
  lemma {:induction false} WalkOn(disk: Sectors, v: Volume, c: nat, j: nat, k: nat)
    requires j <= k && Walk(disk, v, c, j).Some?
    ensures Walk(disk, v, c, k) == Walk(disk, v, Walk(disk, v, c, j).value, k - j)
    decreases j
  {
    if j > 0 {
      WalkOn(disk, v, FatEntry(disk, v, c), j - 1, k - 1);
    }
  }

  /**
   The code knows the 12-bit end marks only, so that a chain which ends as the specification says
   goes on: the end mark is taken for one more cluster, and what its own entry says decides the rest.
   */
  lemma WalkPastEndMark(disk: Sectors, v: Volume, c: nat, last: nat, k: nat)
    requires Walk(disk, v, c, last).Some? && k > last
    requires IsEndMark(FatEntry(disk, v, Walk(disk, v, c, last).value))
    ensures var e := FatEntry(disk, v, Walk(disk, v, c, last).value);
            && Walk(disk, v, c, k) == Walk(disk, v, e, k - last - 1)
            && (k == last + 1 ==> Walk(disk, v, c, k) == Some(e))
            && (IsMarker(FatEntry(disk, v, e)) ==> (Walk(disk, v, c, k).None? <==> k > last + 1))
  {
    WalkOn(disk, v, c, last, k);
    var d := Walk(disk, v, c, last).value;
    var e := FatEntry(disk, v, d);
    assert Walk(disk, v, d, k - last) == Walk(disk, v, e, k - last - 1);
    assert k > last + 1 && IsMarker(FatEntry(disk, v, e)) ==> Walk(disk, v, e, k - last - 1).None?;
  }

  /** At one of the code's own markers the chain does end. */
  lemma WalkPastMarker(disk: Sectors, v: Volume, c: nat, last: nat, k: nat)
    requires Walk(disk, v, c, last).Some? && k > last
    requires IsMarker(FatEntry(disk, v, Walk(disk, v, c, last).value))
    ensures Walk(disk, v, c, k).None?
  {
    WalkOn(disk, v, c, last, k);
  }

  /** These six entry values end the walk, and no others do. */
  lemma WalkEndsExactlyWhen(disk: Sectors, v: Volume, c: nat)
    ensures Walk(disk, v, c, 1).None? <==> FatEntry(disk, v, c) in [0x000, 0xFF0, 0xFF6, 0xFF7, 0xFF8, 0xFFF]
    ensures Walk(disk, v, c, 1).Some? ==> Walk(disk, v, c, 1).value == FatEntry(disk, v, c)
  {
    assert Walk(disk, v, FatEntry(disk, v, c), 0) == Some(FatEntry(disk, v, c));
  }

  /**
   A read beyond the last cluster of a chain that ends in a standard end mark reports -EIO exactly
   when the chain from that mark on breaks off in time; with nothing entered for the mark itself,
   exactly when the read goes on past one whole cluster too many.
   */
  lemma ReadPastEndMark(disk: Sectors, v: Volume, c: nat, last: nat, offset: nat, total: nat)
    requires v.sectorsPerCluster >= 1 && Walk(disk, v, c, last).Some? && LastCluster(v, offset, total) > last
    requires IsEndMark(FatEntry(disk, v, Walk(disk, v, c, last).value))
    ensures var e, k := FatEntry(disk, v, Walk(disk, v, c, last).value), LastCluster(v, offset, total);
            && (ReadBytes(disk, v, c, offset, total).1 == -EIO <==> Walk(disk, v, e, k - last - 1).None?)
            && (IsMarker(FatEntry(disk, v, e)) ==> (ReadBytes(disk, v, c, offset, total).1 == -EIO <==> k > last + 1))
  {
    ReadSucceedsWhen(disk, v, c, offset, total);
    hide Index, Within, ReadBytes, ClusterPos, LastCluster;
    WalkPastEndMark(disk, v, c, last, LastCluster(v, offset, total));
  }

  // ---------- positions that fit in an int ----------

  /** Each step of the read takes its bytes from positions that C's int can hold. */
  ghost predicate InReach(disk: Sectors, v: Volume, c: nat, offset: nat, total: nat)
    requires v.sectorsPerCluster >= 1
    decreases total
  {
    match Walk(disk, v, c, Index(v, offset))
    case None => true
    case Some(cluster) =>
      var n, p := Min(total, ClusterSize(v)), ClusterPos(v, cluster) + Within(v, offset);
      0 <= p && p + n < INT_LIMIT && (total > n ==> InReach(disk, v, c, offset + n, total - n))
  }

  ghost predicate BlocksInReach(disk: Sectors, v: Volume, c: nat, offset: nat, size: nat, count: nat)
    requires v.sectorsPerCluster >= 1
    decreases count
  {
    count == 0 ||
    (InReach(disk, v, c, offset, size) &&
     (ReadBytes(disk, v, c, offset, size).1 >= 0 ==> BlocksInReach(disk, v, c, offset + size, size, count - 1)))
  }

  /**
   It is enough that the clusters the read walks to lie low enough; what follows them on the chain does
   not matter.
   */
  lemma {:induction false} InReachWhen(disk: Sectors, v: Volume, c: nat, offset: nat, total: nat, top: nat)
    requires v.sectorsPerCluster >= 1 && ClusterPos(v, top) + 2 * ClusterSize(v) < INT_LIMIT
    requires forall k: nat :: k <= LastCluster(v, offset, total) && Walk(disk, v, c, k).Some? ==>
               2 <= Walk(disk, v, c, k).value <= top
    ensures InReach(disk, v, c, offset, total)
    decreases total
  {
    hide Index, Within, Walk, ClusterPos, ClusterSize;
    var size := ClusterSize(v);
    var start := Walk(disk, v, c, Index(v, offset));
    FirstStepInBounds(v, offset, total);
    if start.Some? {
      FirstPosition(v);
      PositionsGrow(v, 2, start.value);
      PositionsGrow(v, start.value, top);
    }
    if total > size {
      OneClusterOn(v, offset);
      OneClusterOn(v, total - 1 - size);
      InReachWhen(disk, v, c, offset + size, total - size, top);
    }
  }

  lemma FirstStepInBounds(v: Volume, offset: nat, total: nat)
    requires v.sectorsPerCluster >= 1
    ensures Index(v, offset) <= LastCluster(v, offset, total) && ClusterSize(v) >= 1
  {
  }

  lemma FirstPosition(v: Volume)
    ensures ClusterPos(v, 2) >= 0
  {
  }

  lemma PositionsGrow(v: Volume, c: int, d: int)
    requires c <= d
    ensures ClusterPos(v, c) <= ClusterPos(v, d)
  {
    MultiplesGrow(c - 2, d - 2, v.sectorsPerCluster);
  }

  /** The volume that src/boot/boot.asm describes: 64 KB clusters, two FATs of 256 sectors. */
  const BOOT_VOLUME := Volume(200, 2, 256, 64, 128)

  /** On it every file in the first 32760 clusters can be read, however its chain ends. */
  lemma BootVolumeInReach(disk: Sectors, c: nat, offset: nat, total: nat)
    requires forall k: nat :: k <= LastCluster(BOOT_VOLUME, offset, total) && Walk(disk, BOOT_VOLUME, c, k).Some? ==>
                                2 <= Walk(disk, BOOT_VOLUME, c, k).value <= 32760
    ensures InReach(disk, BOOT_VOLUME, c, offset, total)
  {
    assert ClusterPos(BOOT_VOLUME, 32760) + 2 * ClusterSize(BOOT_VOLUME) < INT_LIMIT;
    InReachWhen(disk, BOOT_VOLUME, c, offset, total, 32760);
  }

  // ---------- scanning past a cluster instead of following the chain ----------

  lemma {:induction false} ContiguousWalk(disk: Sectors, v: Volume, c: nat, k: nat)
    requires forall j: nat :: j < k ==> NextIsAdjacent(disk, v, c, j)
    ensures Walk(disk, v, c, k) == Some(c + k)
    decreases k
  {
    hide Walk;
    if k == 0 {
      FirstOfWalk(disk, v, c);
    } else {
      ContiguousWalk(disk, v, c, k - 1);
      assert NextIsAdjacent(disk, v, c, k - 1);
    }
  }

  lemma FirstOfWalk(disk: Sectors, v: Volume, c: nat)
    ensures Walk(disk, v, c, 0) == Some(c)
  {
  }

  lemma ClusterPosPlus(v: Volume, c: nat, k: nat)
    ensures ClusterPos(v, c + k) == ClusterPos(v, c) + k * ClusterSize(v)
  {
    var n := v.sectorsPerCluster;
    assert (c + k - 2) * n == (c - 2) * n + k * n;
    assert k * n * SECTOR_SIZE == k * ClusterSize(v);
  }

  lemma PositionParts(v: Volume, x: nat)
    requires v.sectorsPerCluster >= 1
    ensures x == Index(v, x) * ClusterSize(v) + Within(v, x)
  {
  }

  lemma StartOfIndex(v: Volume, k: nat)
    requires v.sectorsPerCluster >= 1
    ensures Index(v, k * ClusterSize(v)) == k && Within(v, k * ClusterSize(v)) == 0
  {
    Quotient(k * ClusterSize(v), ClusterSize(v), k, 0);
  }

  /** Byte `x` of the file lies `x` bytes behind the start of its first cluster. */
  ghost predicate InLine(disk: Sectors, v: Volume, c: nat, x: nat)
    requires v.sectorsPerCluster >= 1
  {
    Walk(disk, v, c, Index(v, x)).Some? && LogicalPos(disk, v, c, x) == ClusterPos(v, c) + x
  }

  /** The first `n` bytes of a file lie in line on the disk exactly when its chain is contiguous that far. */
  lemma InLineExactlyWhen(disk: Sectors, v: Volume, c: nat, n: nat)
    requires v.sectorsPerCluster >= 1 && n >= 1
    ensures (forall x: nat :: x < n ==> InLine(disk, v, c, x))
       <==> (forall k: nat :: k < Index(v, n - 1) ==> NextIsAdjacent(disk, v, c, k))
  {
    hide Walk, Index, Within, ClusterPos, NextIsAdjacent, InLine;
    if forall k: nat :: k < Index(v, n - 1) ==> NextIsAdjacent(disk, v, c, k) {
      forall x: nat | x < n
        ensures InLine(disk, v, c, x)
      {
        ContiguousInLine(disk, v, c, n, x);
      }
    }
    if forall x: nat :: x < n ==> InLine(disk, v, c, x) {
      forall k: nat | k < Index(v, n - 1)
        ensures NextIsAdjacent(disk, v, c, k)
      {
        InLineAdjacent(disk, v, c, n, k);
      }
    }
  }

  lemma ContiguousInLine(disk: Sectors, v: Volume, c: nat, n: nat, x: nat)
    requires v.sectorsPerCluster >= 1 && x < n
    requires forall k: nat :: k < Index(v, n - 1) ==> NextIsAdjacent(disk, v, c, k)
    ensures InLine(disk, v, c, x)
  {
    hide Walk, Index, Within, ClusterPos, NextIsAdjacent;
    IndexGrows(v, x, n - 1);
    ContiguousWalk(disk, v, c, Index(v, x));
    ClusterPosPlus(v, c, Index(v, x));
    PositionParts(v, x);
  }

  lemma InLineAdjacent(disk: Sectors, v: Volume, c: nat, n: nat, k: nat)
    requires v.sectorsPerCluster >= 1 && n >= 1 && k < Index(v, n - 1)
    requires forall x: nat :: x < n ==> InLine(disk, v, c, x)
    ensures NextIsAdjacent(disk, v, c, k)
  {
    hide Walk, Index, Within, ClusterPos;
    var size := ClusterSize(v);
    StartOfIndex(v, k);
    StartOfIndex(v, k + 1);
    PositionParts(v, n - 1);
    MultiplesGrow(k + 1, Index(v, n - 1), size);
    MultiplesGrow(k, k + 1, size);
    assert (k + 1) * size == k * size + size;
    assert InLine(disk, v, c, k * size) && InLine(disk, v, c, (k + 1) * size);
    NextClusterPos(v, Walk(disk, v, c, k).value, Walk(disk, v, c, k + 1).value);
  }

  // ---------- reading several blocks ----------

  /** The loop of fat16_read: `count` blocks of `size` bytes from `offset` on, each read on its own. */
  ghost function ReadBlocks(disk: Sectors, v: Volume, c: nat, offset: nat, size: nat, count: nat): (r: (seq<byte>, int))
    requires v.sectorsPerCluster >= 1
    decreases count
  {
    if count == 0 then ([], 0)
    else
      var (bytes, res) := ReadBytes(disk, v, c, offset, size);
      if res < 0 then (bytes, res)
      else
        var (rest, last) := ReadBlocks(disk, v, c, offset + size, size, count - 1);
        (bytes + rest, last)
  }

  lemma BlockSizes(size: nat, count: nat)
    requires count >= 1
    ensures size * count == size + size * (count - 1)
  {
  }

  lemma {:induction false} ReadBlocksLength(disk: Sectors, v: Volume, c: nat, offset: nat, size: nat, count: nat)
    requires v.sectorsPerCluster >= 1
    ensures |ReadBlocks(disk, v, c, offset, size, count).0| <= size * count
    decreases count
  {
    hide Walk, ReadBytes;
    if count > 0 {
      BlockSizes(size, count);
      BlockSizesGrow(size, count);
      if ReadBytes(disk, v, c, offset, size).1 >= 0 {
        ReadBlocksLength(disk, v, c, offset + size, size, count - 1);
      }
    }
  }

  lemma BlockSizesGrow(size: nat, count: nat)
    requires count >= 1
    ensures size <= size * count
  {
  }

  /** A block that no cluster end cuts: blocks divide clusters, or clusters divide blocks, from an aligned position. */
  predicate BlockAligned(v: Volume, offset: nat, size: nat)
    requires v.sectorsPerCluster >= 1 && size >= 1
  {
    (ClusterSize(v) % size == 0 && offset % size == 0) || (size % ClusterSize(v) == 0 && Within(v, offset) == 0)
  }

  /** A multiple of `size` below a larger multiple leaves room for `size` more. */
  lemma RoomForOne(t: int, m: int, size: nat)
    requires size >= 1 && t * size < m * size
    ensures t * size + size <= m * size
  {
    if t + 1 <= m {
      MultiplesGrow(t + 1, m, size);
    } else {
      MultiplesGrow(m, t, size);
    }
  }

  lemma MultiplesGrow(a: int, b: int, size: nat)
    requires a <= b
    ensures a * size <= b * size
  {
  }

  lemma MultipleAfter(offset: nat, size: nat)
    requires size >= 1 && offset % size == 0
    ensures (offset + size) % size == 0
  {
    Quotient(offset + size, size, offset / size + 1, 0);
  }

  lemma ClusterPositionIsMultiple(v: Volume, offset: nat, size: nat) returns (t: int, m: nat)
    requires v.sectorsPerCluster >= 1 && size >= 1 && ClusterSize(v) % size == 0 && offset % size == 0
    ensures Within(v, offset) == t * size && ClusterSize(v) == m * size
  {
    var cs := ClusterSize(v);
    m := cs / size;
    var q, k := offset / size, offset / cs;
    t := q - k * m;
    assert offset == q * size && cs == m * size && offset == k * cs + Within(v, offset);
    assert k * cs == k * (m * size) == (k * m) * size;
    assert t * size == q * size - (k * m) * size;
  }

  lemma BlockAlignedFits(v: Volume, offset: nat, size: nat)
    requires v.sectorsPerCluster >= 1 && size >= 1 && BlockAligned(v, offset, size)
    ensures Within(v, offset) == 0 || Within(v, offset) + size <= ClusterSize(v)
  {
    if ClusterSize(v) % size == 0 && offset % size == 0 {
      var t, m := ClusterPositionIsMultiple(v, offset, size);
      RoomForOne(t, m, size);
    }
  }

  lemma BlockAlignedNext(v: Volume, offset: nat, size: nat)
    requires v.sectorsPerCluster >= 1 && size >= 1 && BlockAligned(v, offset, size)
    ensures BlockAligned(v, offset + size, size)
  {
    if ClusterSize(v) % size == 0 && offset % size == 0 {
      MultipleAfter(offset, size);
    } else {
      var cs := ClusterSize(v);
      var k := offset / cs + size / cs;
      assert offset + size == k * cs by {
        assert k * cs == offset / cs * cs + size / cs * cs;
      }
      Quotient(offset + size, cs, k, 0);
    }
  }

  lemma CoversLess(disk: Sectors, v: Volume, c: nat, n: nat, m: nat)
    requires Covers(disk, v, c, n) && m <= n
    ensures Covers(disk, v, c, m)
  {
    hide Walk, Index;
  }

  lemma LogicalBytesJoin(disk: Sectors, v: Volume, c: nat, offset: nat, a: nat, b: nat)
    requires Covers(disk, v, c, offset + a + b)
    ensures Covers(disk, v, c, offset + a) && Covers(disk, v, c, offset + (a + b))
    ensures LogicalBytes(disk, v, c, offset, a) + LogicalBytes(disk, v, c, offset + a, b)
            == LogicalBytes(disk, v, c, offset, a + b)
  {
    hide Walk, Index, LogicalByte;
    CoversLess(disk, v, c, offset + a + b, offset + a);
  }

  /**
   Multi-block reads compose: aligned blocks fill the buffer with one contiguous stretch of the
   file, whatever the number of blocks and however the chain is laid out.
   */
  lemma {:induction false} BlocksCompose(disk: Sectors, v: Volume, c: nat, offset: nat, size: nat, count: nat)
    requires v.sectorsPerCluster >= 1 && Covers(disk, v, c, offset + size * count)
    requires size >= 1 && BlockAligned(v, offset, size)
    ensures ReadBlocks(disk, v, c, offset, size, count) == (LogicalBytes(disk, v, c, offset, size * count), 0)
    decreases count
  {
    hide Walk, Index, Within, ReadBytes, NoGap, LogicalByte, Covers, BlockAligned, LogicalBytes, ClusterSize;
    if count == 0 {
      assert size * count == 0;
      NothingToRead(disk, v, c, offset);
    } else {
      BlockSizes(size, count);
      var rest := size * (count - 1);
      LogicalBytesJoin(disk, v, c, offset, size, rest);
      BlockAlignedFits(v, offset, size);
      BlockAlignedNext(v, offset, size);
      AlignedMeansNoGap(disk, v, c, offset, size);
      ReadRefinesFile(disk, v, c, offset, size);
      BlocksCompose(disk, v, c, offset + size, size, count - 1);
    }
  }

  /** None of the blocks has a gap of its own. */
  ghost predicate NoGaps(disk: Sectors, v: Volume, c: nat, offset: nat, size: nat, count: nat)
    requires v.sectorsPerCluster >= 1
  {
    forall i: nat :: i < count ==> NoGap(disk, v, c, offset + size * i, size)
  }

  lemma NoGapsAfterFirst(disk: Sectors, v: Volume, c: nat, offset: nat, size: nat, count: nat)
    requires v.sectorsPerCluster >= 1 && count >= 1 && NoGaps(disk, v, c, offset, size, count)
    ensures NoGap(disk, v, c, offset, size) && NoGaps(disk, v, c, offset + size, size, count - 1)
  {
    hide NoGap;
    assert offset + size * 0 == offset;
    forall i: nat | i < count - 1
      ensures NoGap(disk, v, c, offset + size + size * i, size)
    {
      BlockSizes(size, i + 1 + 1);
      BlockSizes(size, i + 1);
      assert offset + size * (i + 1) == offset + size + size * i;
    }
  }

  /** Blocks of any size fill the buffer with one stretch of the file if none of them meets a gap. */
  lemma {:induction false} BlocksReadFile(disk: Sectors, v: Volume, c: nat, offset: nat, size: nat, count: nat)
    requires v.sectorsPerCluster >= 1 && Covers(disk, v, c, offset + size * count) && size >= 1
    requires NoGaps(disk, v, c, offset, size, count)
    ensures ReadBlocks(disk, v, c, offset, size, count) == (LogicalBytes(disk, v, c, offset, size * count), 0)
    decreases count
  {
    hide Walk, Index, Within, ReadBytes, NoGap, NoGaps, LogicalByte, Covers, LogicalBytes, ClusterSize;
    if count == 0 {
      assert size * count == 0;
      NothingToRead(disk, v, c, offset);
    } else {
      BlockSizes(size, count);
      LogicalBytesJoin(disk, v, c, offset, size, size * (count - 1));
      NoGapsAfterFirst(disk, v, c, offset, size, count);
      ReadRefinesFile(disk, v, c, offset, size);
      BlocksReadFile(disk, v, c, offset + size, size, count - 1);
    }
  }

  /** How every program is read: one block of the file's size from its start, whatever that size. */
  lemma WholeFileRead(disk: Sectors, v: Volume, c: nat, size: nat)
    requires v.sectorsPerCluster >= 1 && size >= 1 && Covers(disk, v, c, size)
    ensures ReadBlocks(disk, v, c, 0, size, 1) == (LogicalBytes(disk, v, c, 0, size), 0)
  {
    hide Walk, Index, Within, ReadBytes, NoGap, LogicalByte, Covers, LogicalBytes, ClusterSize, ReadBlocks;
    SomeBytes(v);
    WithinFirst(v, 0);
    AlignedMeansNoGap(disk, v, c, 0, size);
    assert size * 1 == size && forall i: nat :: i < 1 ==> 0 + size * i == 0;
    BlocksReadFile(disk, v, c, 0, size, 1);
  }

  lemma SomeBytes(v: Volume)
    requires v.sectorsPerCluster >= 1
    ensures ClusterSize(v) >= 1
  {
  }

  lemma NothingToRead(disk: Sectors, v: Volume, c: nat, offset: nat)
    requires Covers(disk, v, c, offset)
    ensures Covers(disk, v, c, offset + 0) && LogicalBytes(disk, v, c, offset, 0) == []
  {
    hide Walk, LogicalByte;
  }

  // ---------- a read that goes wrong ----------

  /** A sector of zeros but for byte `b` at index `i`. */
  function MarkedSector(i: nat, b: byte): Sector {
    seq<byte>(SECTOR_SIZE, k requires 0 <= k < SECTOR_SIZE => if k == i then b else 0)
  }

  /** One FAT sector, one root sector, one-sector clusters; the chain goes from cluster 2 to cluster 4. */
  const EXAMPLE_VOLUME := Volume(1, 1, 1, 16, 1)

  function ExampleSector(n: nat): Sector {
    if n == 1 then MarkedSector(4, 4) else if n == 5 then MarkedSector(0, 7) else MarkedSector(0, 0)
  }

  function ExampleDisk(): Sectors {
    ExampleSector
  }

  lemma ExampleWalk(k: nat)
    ensures Walk(ExampleDisk(), EXAMPLE_VOLUME, 2, k) == if k == 0 then Some(2) else if k == 1 then Some(4) else None
  {
    var disk, v := ExampleDisk(), EXAMPLE_VOLUME;
    assert FatEntry(disk, v, 2) == 4 by {
      assert ByteAt(disk, 516) == 4 && ByteAt(disk, 517) == 0;
    }
    assert FatEntry(disk, v, 4) == 0 by {
      assert ByteAt(disk, 520) == 0 && ByteAt(disk, 521) == 0;
    }
    if k >= 2 {
      assert Walk(disk, v, 2, k) == Walk(disk, v, 4, k - 1) == None;
    }
  }

  lemma ExampleBytes()
    ensures ByteAt(ExampleDisk(), 2047) == 0 && ByteAt(ExampleDisk(), 2048) == 0 && ByteAt(ExampleDisk(), 2560) == 7
  {
  }

  lemma ExampleFile()
    ensures Covers(ExampleDisk(), EXAMPLE_VOLUME, 2, 513)
    ensures LogicalBytes(ExampleDisk(), EXAMPLE_VOLUME, 2, 511, 2) == [0, 7]
  {
    forall k: nat
      ensures Walk(ExampleDisk(), EXAMPLE_VOLUME, 2, k) == if k == 0 then Some(2) else if k == 1 then Some(4) else None
    {
      ExampleWalk(k);
    }
    ExampleBytes();
    hide Walk, ByteAt, ExampleDisk;
  }

  /** Two bytes across the end of cluster 2: the file goes on in cluster 4, the code reads cluster 3. */
  lemma UnalignedReadExample()
    ensures Covers(ExampleDisk(), EXAMPLE_VOLUME, 2, 513)
    ensures ReadBytes(ExampleDisk(), EXAMPLE_VOLUME, 2, 511, 2) == ([0, 0], 0)
    ensures LogicalBytes(ExampleDisk(), EXAMPLE_VOLUME, 2, 511, 2) == [0, 7]
  {
    ExampleFile();
    ExampleWalk(0);
    ExampleBytes();
    hide Walk, ByteAt, ExampleDisk, LogicalBytes, Covers;
    ReadBytesStep(ExampleDisk(), EXAMPLE_VOLUME, 2, 511, 2, 2);
    assert Slice(ExampleDisk(), 2047, 2) == [0, 0];
  }
}
