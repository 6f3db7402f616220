/**
 From the entries on the disk to the result of a lookup (src/fs/fat/fat16.c): the entries are counted
 without the deleted ones, as many are loaded from the first one on, and the name is looked for there.
 */
module Lookup {
  import opened DiskStream
  import opened FatChain
  import opened Fat16
  import opened Directory

  // ---------- entries on the disk ----------

  // Where the numbers lie in struct fat_directory_item.
  const ATTRIBUTE := 11
  const HIGH_CLUSTER := 20
  const LOW_CLUSTER := 26
  const FILE_SIZE := 28

  /** A little-endian 16-bit word. */
  function Word16(bytes: Bytes, at: nat): nat
    requires at + 1 < |bytes|
  {
    var low: int, high: int := bytes[at], bytes[at + 1];
    low + 0x100 * high
  }

  function EntryOf(bytes: Bytes): (e: Entry)
    requires |bytes| == ENTRY_SIZE
    ensures e.Valid()
  {
    Entry(bytes[..NAME_SIZE], bytes[NAME_SIZE..NAME_SIZE + EXT_SIZE], bytes[ATTRIBUTE],
          0x1_0000 * Word16(bytes, HIGH_CLUSTER) + Word16(bytes, LOW_CLUSTER),
          Word16(bytes, FILE_SIZE) + 0x1_0000 * Word16(bytes, FILE_SIZE + 2))
  }

  /** Entry `i` of the directory whose entries lie one after the other from byte position `start` on. */
  function DiskEntry(disk: Sectors, start: int, i: nat): (e: Entry)
    ensures e.Valid()
  {
    EntryOf(Slice(disk, start + i * ENTRY_SIZE, ENTRY_SIZE))
  }

  /** The first `n` of those entries. */
  function DiskEntries(disk: Sectors, start: int, n: nat): (es: seq<Entry>)
    ensures |es| == n && forall i :: 0 <= i < n ==> es[i] == DiskEntry(disk, start, i)
  {
    seq(n, i requires 0 <= i < n => DiskEntry(disk, start, i))
  }

  lemma FirstByteOfEntry(disk: Sectors, start: int, i: nat)
    ensures DiskEntry(disk, start, i).name[0] == FirstByte(disk, start, i)
  {
  }

  // ---------- which entries are loaded ----------

  /** No live entry comes behind a deleted one. */
  ghost predicate NoHole(disk: Sectors, start: int, end: nat) {
    forall i: nat, j: nat :: i < j < end && !IsLive(disk, start, i) ==> !IsLive(disk, start, j)
  }

  lemma {:induction false} CountGrows(disk: Sectors, start: int, a: nat, b: nat)
    requires a <= b
    ensures LiveEntries(disk, start, a) <= LiveEntries(disk, start, b)
    ensures (forall i: nat :: a <= i < b ==> !IsLive(disk, start, i)) ==>
              LiveEntries(disk, start, a) == LiveEntries(disk, start, b)
    decreases b
  {
    hide IsLive;
    if a < b {
      CountGrows(disk, start, a, b - 1);
      assert !IsLive(disk, start, b - 1) ==> LiveEntries(disk, start, b) == LiveEntries(disk, start, b - 1);
    }
  }

  /** Every live entry is among those that are loaded exactly when none comes behind a deleted one. */
  lemma {:induction false} LiveEntriesLoadedExactlyWhen(disk: Sectors, start: int, end: nat)
    ensures (forall i: nat :: i < end && IsLive(disk, start, i) ==> i < LiveEntries(disk, start, end))
       <==> NoHole(disk, start, end)
  {
    hide LiveEntries, IsLive;
    var count := LiveEntries(disk, start, end);
    if NoHole(disk, start, end) {
      forall i: nat | i < end && IsLive(disk, start, i)
        ensures i < count
      {
        CountedAllExactlyWhen(disk, start, i + 1);
        CountGrows(disk, start, i + 1, end);
      }
    }
    if forall i: nat :: i < end && IsLive(disk, start, i) ==> i < count {
      CountGrows(disk, start, count, end);
      CountedAllExactlyWhen(disk, start, count);
    }
  }

  /** Without a hole the loaded entries are the live ones, no more and no fewer. */
  lemma LoadedAreLive(disk: Sectors, start: int, end: nat, i: nat)
    requires NoHole(disk, start, end) && i < end
    ensures i < LiveEntries(disk, start, end) <==> IsLive(disk, start, i)
  {
    hide LiveEntries;
    var count := LiveEntries(disk, start, end);
    LiveEntriesLoadedExactlyWhen(disk, start, end);
    CountGrows(disk, start, count, end);
    CountedAllExactlyWhen(disk, start, count);
  }

  // ---------- what a lookup finds ----------

  /** A live entry of the directory has the name. */
  ghost predicate Present(disk: Sectors, start: int, end: nat, name: Bytes) {
    exists i: nat :: i < end && IsLive(disk, start, i) && Matches(DiskEntry(disk, start, i), name)
  }

  /** One of the items has the name; FindItem returns null exactly when none has. */
  ghost predicate Found(items: seq<Entry>, name: Bytes)
    requires forall e :: e in items ==> e.Valid()
  {
    exists i :: 0 <= i < |items| && Matches(items[i], name)
  }

  ghost predicate LookupIsExact(disk: Sectors, start: int, end: nat, name: Bytes) {
    Found(DiskEntries(disk, start, LiveEntries(disk, start, end)), name) <==> Present(disk, start, end, name)
  }

  predicate DifferentNames(e: Entry, f: Entry) {
    e.name != f.name || e.ext != f.ext
  }

  /** The live entries have legal names, each its own. */
  ghost predicate DistinctNames(disk: Sectors, start: int, end: nat) {
    && (forall i: nat :: i < end && IsLive(disk, start, i) ==> LegalEntry(DiskEntry(disk, start, i)))
    && (forall i: nat, j: nat :: i < j < end && IsLive(disk, start, i) && IsLive(disk, start, j) ==>
                                   DifferentNames(DiskEntry(disk, start, i), DiskEntry(disk, start, j)))
  }

  lemma LookupWithoutHole(disk: Sectors, start: int, end: nat, name: Bytes)
    requires NoHole(disk, start, end)
    ensures LookupIsExact(disk, start, end, name)
  {
    hide Matches, IsLive, LiveEntries, NoHole, DiskEntry;
    var count := LiveEntries(disk, start, end);
    var items := DiskEntries(disk, start, count);
    if Found(items, name) {
      var i :| 0 <= i < |items| && Matches(items[i], name);
      LoadedAreLive(disk, start, end, i);
    }
    if Present(disk, start, end, name) {
      var i: nat :| i < end && IsLive(disk, start, i) && Matches(DiskEntry(disk, start, i), name);
      LoadedAreLive(disk, start, end, i);
      assert Matches(items[i], name);
    }
  }

  lemma FirstOfTrim(s: Bytes)
    requires s != []
    ensures Trim(s) == [] <==> s[0] == 0 || s[0] == SPACE
    ensures Trim(s) != [] ==> Trim(s)[0] == s[0]
  {
  }

  /** A deleted entry never has the rendered name of a live one. */
  lemma DeletedMatchesNoLive(e: Entry, f: Entry)
    requires e.Valid() && f.Valid() && e.name[0] == DELETED && f.name[0] != DELETED
    ensures !SameUpToCase(FullName(e), FullName(f))
  {
    FirstOfTrim(e.name);
    FirstOfTrim(f.name);
    hide Trim;
    assert FullName(e)[0] == DELETED;
    if FullName(f) != [] {
      assert FullName(f)[0] == f.name[0] || FullName(f)[0] == DOT;
      assert !SameLetter(DELETED, FullName(f)[0]);
    }
  }

  /** An entry behind the loaded ones is not found under its own name. */
  lemma MissedEntry(disk: Sectors, start: int, end: nat, j: nat)
    requires DistinctNames(disk, start, end)
    requires j < end && IsLive(disk, start, j) && LiveEntries(disk, start, end) <= j
    ensures var name := FullName(DiskEntry(disk, start, j));
            && 0 !in name && Present(disk, start, end, name)
            && !Found(DiskEntries(disk, start, LiveEntries(disk, start, end)), name)
  {
    hide LiveEntries, FullName, DiskEntry, SameUpToCase, LegalEntry, FirstByte;
    var f := DiskEntry(disk, start, j);
    NoNul(f);
    SameAsItself(FullName(f));
    FirstByteOfEntry(disk, start, j);
    forall i: nat | i < LiveEntries(disk, start, end)
      ensures !Matches(DiskEntry(disk, start, i), FullName(f))
    {
      FirstByteOfEntry(disk, start, i);
      if Matches(DiskEntry(disk, start, i), FullName(f)) {
        if IsLive(disk, start, i) {
          NamesAreUnambiguous(DiskEntry(disk, start, i), f);
        } else {
          DeletedMatchesNoLive(DiskEntry(disk, start, i), f);
        }
      }
    }
  }

  /**
   On a directory whose live entries have different legal names, looking up a name finds it exactly
   when a live entry has it, for every name, if and only if no live entry comes behind a deleted one.
   */
  lemma LookupExactlyWhen(disk: Sectors, start: int, end: nat)
    requires DistinctNames(disk, start, end)
    ensures (forall name :: 0 !in name ==> LookupIsExact(disk, start, end, name)) <==> NoHole(disk, start, end)
  {
    hide LiveEntries, IsLive, DiskEntry, Matches, DistinctNames, FullName;
    if NoHole(disk, start, end) {
      forall name | 0 !in name
        ensures LookupIsExact(disk, start, end, name)
      {
        LookupWithoutHole(disk, start, end, name);
      }
    } else {
      LiveEntriesLoadedExactlyWhen(disk, start, end);
      var j: nat :| j < end && IsLive(disk, start, j) && LiveEntries(disk, start, end) <= j;
      MissedEntry(disk, start, end, j);
      assert !LookupIsExact(disk, start, end, FullName(DiskEntry(disk, start, j)));
    }
  }

  // ---------- loading a directory ----------

  /** The array that a buffer of raw entries is. */
  function ItemsOf(bytes: Bytes, n: nat): (items: seq<Entry>)
    requires |bytes| == n * ENTRY_SIZE
    ensures |items| == n && forall e :: e in items ==> e.Valid()
    ensures forall i :: 0 <= i < n ==> items[i] == EntryOf(bytes[i * ENTRY_SIZE..i * ENTRY_SIZE + ENTRY_SIZE])
  {
    seq(n, i requires 0 <= i < n => EntryOf(bytes[i * ENTRY_SIZE..i * ENTRY_SIZE + ENTRY_SIZE]))
  }

  /** Entry `i` of the directory that is the file starting at cluster `c`. */
  ghost function ChainEntry(disk: Sectors, v: Volume, c: nat, i: nat): (e: Entry)
    requires Covers(disk, v, c, i * ENTRY_SIZE + ENTRY_SIZE)
  {
    EntryOf(LogicalBytes(disk, v, c, i * ENTRY_SIZE, ENTRY_SIZE))
  }

  /** The items are the first entries of the directory's chain. */
  ghost predicate FromChain(disk: Sectors, v: Volume, c: nat, items: seq<Entry>) {
    && Covers(disk, v, c, |items| * ENTRY_SIZE)
    && forall i :: 0 <= i < |items| ==>
         Covers(disk, v, c, i * ENTRY_SIZE + ENTRY_SIZE) && items[i] == ChainEntry(disk, v, c, i)
  }

  lemma EntryInBytes(bytes: Bytes, disk: Sectors, v: Volume, c: nat, n: nat, i: nat)
    requires i < n && Covers(disk, v, c, n * ENTRY_SIZE) && bytes == LogicalBytes(disk, v, c, 0, n * ENTRY_SIZE)
    ensures Covers(disk, v, c, i * ENTRY_SIZE + ENTRY_SIZE)
    ensures ItemsOf(bytes, n)[i] == ChainEntry(disk, v, c, i)
  {
    hide Index, Walk, LogicalByte;
    CoversLess(disk, v, c, n * ENTRY_SIZE, i * ENTRY_SIZE + ENTRY_SIZE);
    assert bytes[i * ENTRY_SIZE..i * ENTRY_SIZE + ENTRY_SIZE] == LogicalBytes(disk, v, c, i * ENTRY_SIZE, ENTRY_SIZE);
  }

  lemma ItemsFromChain(bytes: Bytes, disk: Sectors, v: Volume, c: nat, n: nat)
    requires v.sectorsPerCluster >= 1 && ReadBytes(disk, v, c, 0, n * ENTRY_SIZE) == (bytes, 0)
    ensures |bytes| == n * ENTRY_SIZE && FromChain(disk, v, c, ItemsOf(bytes, n))
  {
    hide Index, Walk, LogicalByte, ReadBytes, Within, LogicalBytes, Covers, EntryOf, ChainEntry;
    if n == 0 {
      assert Covers(disk, v, c, 0) by {
        NothingCovered(disk, v, c);
      }
    } else {
      WithinFirst(v, 0);
      AlignedRead(disk, v, c, 0, n * ENTRY_SIZE);
      forall i: nat | i < n
        ensures Covers(disk, v, c, i * ENTRY_SIZE + ENTRY_SIZE) && ItemsOf(bytes, n)[i] == ChainEntry(disk, v, c, i)
      {
        EntryInBytes(bytes, disk, v, c, n, i);
      }
    }
  }

  lemma NothingCovered(disk: Sectors, v: Volume, c: nat)
    requires v.sectorsPerCluster >= 1
    ensures Covers(disk, v, c, 0)
  {
  }

  /** The entries that were counted are those that are loaded as long as the directory's clusters are adjacent. */
  lemma ChainEntriesAreDiskEntries(disk: Sectors, v: Volume, c: nat, items: seq<Entry>)
    requires v.sectorsPerCluster >= 1 && FromChain(disk, v, c, items) && items != []
    requires forall k: nat :: k < Index(v, |items| * ENTRY_SIZE - 1) ==> NextIsAdjacent(disk, v, c, k)
    ensures items == DiskEntries(disk, ClusterPos(v, c), |items|)
  {
    hide Index, Walk, ByteAt, ClusterPos, EntryOf, InLine;
    InLineExactlyWhen(disk, v, c, |items| * ENTRY_SIZE);
    forall i: nat | i < |items|
      ensures items[i] == DiskEntry(disk, ClusterPos(v, c), i)
    {
      BytesInLine(disk, v, c, i * ENTRY_SIZE, ENTRY_SIZE);
    }
  }

  lemma BytesInLine(disk: Sectors, v: Volume, c: nat, offset: nat, n: nat)
    requires Covers(disk, v, c, offset + n) && forall x: nat :: x < offset + n ==> InLine(disk, v, c, x)
    ensures LogicalBytes(disk, v, c, offset, n) == Slice(disk, ClusterPos(v, c) + offset, n)
  {
    hide Index, Walk, ByteAt, ClusterPos;
    forall i: nat | i < n
      ensures LogicalBytes(disk, v, c, offset, n)[i] == Slice(disk, ClusterPos(v, c) + offset, n)[i]
    {
      assert InLine(disk, v, c, offset + i);
      assert LogicalBytes(disk, v, c, offset, n)[i] == LogicalByte(disk, v, c, offset + i);
      assert ClusterPos(v, c) + (offset + i) == ClusterPos(v, c) + offset + i;
    }
  }

  /**
   fat16_load_fat_directory: counts the entries that lie behind the first cluster's start on the disk,
   then reads as many from the directory's chain.
   */
  method LoadFatDirectory(fs: FileSystem, stream: Stream, cluster: nat, ghost end: nat)
    returns (res: int, items: seq<Entry>)
    requires fs.Valid() && cluster < 0x1_0000 && stream.disk == fs.disk
    requires ClusterPos(fs.volume, cluster) >= 0 && EndsAt(fs.disk.sectors, ClusterPos(fs.volume, cluster), end)
    requires ClusterPos(fs.volume, cluster) + (end + 1) * ENTRY_SIZE < INT_LIMIT
    requires InReach(fs.disk.sectors, fs.volume, cluster, 0,
                     LiveEntries(fs.disk.sectors, ClusterPos(fs.volume, cluster), end) * ENTRY_SIZE)
    modifies fs.fatStream, fs.clusterStream, fs.disk, stream
    ensures |items| == LiveEntries(fs.disk.sectors, ClusterPos(fs.volume, cluster), end)
    ensures forall e :: e in items ==> e.Valid()
    ensures res == ReadBytes(fs.disk.sectors, fs.volume, cluster, 0, |items| * ENTRY_SIZE).1
    ensures res == 0 ==> FromChain(fs.disk.sectors, fs.volume, cluster, items)
  {
    hide ReadBytes, LiveEntries, EndsAt, InReach, Written, ClusterPos, FromChain, EntryOf;
    var sector := EndSector(fs.volume) + (cluster - 2) * fs.volume.sectorsPerCluster;
    StartOfCluster(fs.volume, cluster);
    var total := TotalItems(stream, sector, end);
    var buffer := new byte[total * ENTRY_SIZE](_ => 0);
    ghost var before := buffer[..];
    res := fs.ReadInternal(cluster, 0, total * ENTRY_SIZE, buffer, 0);
    items := ItemsOf(buffer[..], total);
    if res == 0 {
      ghost var bytes := ReadBytes(fs.disk.sectors, fs.volume, cluster, 0, total * ENTRY_SIZE).0;
      ItemsFromChain(bytes, fs.disk.sectors, fs.volume, cluster, total);
      WholeWritten(before, bytes);
    }
  }

  /**
   A lookup in a subdirectory: with adjacent clusters and no hole it returns null exactly when no
   live entry of the directory has the name. Once loading fails the code goes on with an array that
   it has freed; the model stops there.
   */
  method FindInFatDirectory(fs: FileSystem, stream: Stream, cluster: nat, name: Bytes, ghost end: nat)
    returns (res: int, found: int)
    requires fs.Valid() && cluster < 0x1_0000 && stream.disk == fs.disk && 0 !in name
    requires ClusterPos(fs.volume, cluster) >= 0 && EndsAt(fs.disk.sectors, ClusterPos(fs.volume, cluster), end)
    requires ClusterPos(fs.volume, cluster) + (end + 1) * ENTRY_SIZE < INT_LIMIT
    requires InReach(fs.disk.sectors, fs.volume, cluster, 0,
                     LiveEntries(fs.disk.sectors, ClusterPos(fs.volume, cluster), end) * ENTRY_SIZE)
    modifies fs.fatStream, fs.clusterStream, fs.disk, stream
    ensures var start := ClusterPos(fs.volume, cluster);
            var n := LiveEntries(fs.disk.sectors, start, end) * ENTRY_SIZE;
            && res == ReadBytes(fs.disk.sectors, fs.volume, cluster, 0, n).1
            && (res == 0 && NoHole(fs.disk.sectors, start, end)
                && (forall k: nat :: n > 0 && k < Index(fs.volume, n - 1) ==>
                     NextIsAdjacent(fs.disk.sectors, fs.volume, cluster, k))
                ==> (found == -1 <==> !Present(fs.disk.sectors, start, end, name)))
  {
    hide ReadBytes, LiveEntries, EndsAt, InReach, ClusterPos, FromChain, NoHole, Matches, Present, DiskEntry, EntryOf,
      Index;
    ghost var disk, v := fs.disk.sectors, fs.volume;
    ghost var start := ClusterPos(v, cluster);
    var items;
    res, items := LoadFatDirectory(fs, stream, cluster, end);
    found := -1;
    if res != 0 {
      return;
    }
    found := FindItem(items, name);
    if NoHole(disk, start, end) &&
      (forall k: nat :: items != [] && k < Index(v, |items| * ENTRY_SIZE - 1) ==> NextIsAdjacent(disk, v, cluster, k))
    {
      LookupWithoutHole(disk, start, end, name);
      if items != [] {
        ChainEntriesAreDiskEntries(disk, v, cluster, items);
      }
      assert items == DiskEntries(disk, start, |items|);
      assert found == -1 <==> !Found(items, name);
    }
  }

  // ---------- the root directory ----------

  lemma EntryInSlice(bytes: Bytes, disk: Sectors, start: int, n: nat)
    requires bytes == Slice(disk, start, n * ENTRY_SIZE)
    ensures ItemsOf(bytes, n) == DiskEntries(disk, start, n)
  {
    hide ByteAt, EntryOf;
    forall i: nat | i < n
      ensures bytes[i * ENTRY_SIZE..i * ENTRY_SIZE + ENTRY_SIZE] == Slice(disk, start + i * ENTRY_SIZE, ENTRY_SIZE)
    {
    }
  }

  /** fat16_get_root_directory: the count, and the whole area of the root directory. */
  method LoadRoot(stream: Stream, v: Volume, ghost end: nat) returns (items: seq<Entry>, total: nat)
    requires EndsAt(stream.disk.sectors, RootSector(v) * SECTOR_SIZE, end)
    requires RootSector(v) * SECTOR_SIZE + (end + 1) * ENTRY_SIZE < INT_LIMIT
    requires RootSector(v) * SECTOR_SIZE + v.rootEntries * ENTRY_SIZE < INT_LIMIT
    modifies stream, stream.disk
    ensures items == DiskEntries(stream.disk.sectors, RootSector(v) * SECTOR_SIZE, v.rootEntries)
    ensures total == LiveEntries(stream.disk.sectors, RootSector(v) * SECTOR_SIZE, end)
  {
    hide LiveEntries, EndsAt, Written, RootSector;
    total := TotalItems(stream, RootSector(v), end);
    var buffer := new byte[v.rootEntries * ENTRY_SIZE](_ => 0);
    ghost var before := buffer[..];
    var res := stream.Seek(RootSector(v) * SECTOR_SIZE);
    res := stream.Read(buffer, 0, v.rootEntries * ENTRY_SIZE);
    WholeWritten(before, Slice(stream.disk.sectors, RootSector(v) * SECTOR_SIZE, v.rootEntries * ENTRY_SIZE));
    EntryInSlice(buffer[..], stream.disk.sectors, RootSector(v) * SECTOR_SIZE, v.rootEntries);
    items := ItemsOf(buffer[..], v.rootEntries);
  }

  /** A lookup in the root directory, whose end marker lies inside its area. */
  method FindInRoot(stream: Stream, v: Volume, name: Bytes, ghost end: nat) returns (found: int, item: Entry)
    requires EndsAt(stream.disk.sectors, RootSector(v) * SECTOR_SIZE, end) && end <= v.rootEntries && 0 !in name
    requires RootSector(v) * SECTOR_SIZE + (v.rootEntries + 1) * ENTRY_SIZE < INT_LIMIT
    modifies stream, stream.disk
    ensures var disk, start := stream.disk.sectors, RootSector(v) * SECTOR_SIZE;
            && (found == -1 <==> !Found(DiskEntries(disk, start, LiveEntries(disk, start, end)), name))
            && (NoHole(disk, start, end) ==> (found == -1 <==> !Present(disk, start, end, name)))
            && (found == -1 || 0 <= found < LiveEntries(disk, start, end))
            && (found != -1 ==> item == DiskEntry(disk, start, found) && Matches(item, name))
  {
    hide LiveEntries, EndsAt, RootSector, NoHole, Matches, Present, DiskEntry;
    ghost var disk, start := stream.disk.sectors, RootSector(v) * SECTOR_SIZE;
    var items, total := LoadRoot(stream, v, end);
    LiveAtMost(disk, start, end);
    found := FindItem(items[..total], name);
    assert items[..total] == DiskEntries(disk, start, total);
    item := if found == -1 then EmptyEntry() else items[found];
    if NoHole(disk, start, end) {
      LookupWithoutHole(disk, start, end, name);
    }
  }

  function EmptyEntry(): Entry {
    Entry([], [], 0, 0, 0)
  }

  lemma LiveAtMost(disk: Sectors, start: int, end: nat)
    ensures LiveEntries(disk, start, end) <= end
  {
  }

  // ---------- a lookup that goes wrong ----------

  /** Three entries, a deleted one and then A and B, in sector 0. */
  function HoleSector(): Sector {
    seq<byte>(SECTOR_SIZE, k requires 0 <= k < SECTOR_SIZE =>
      if k == 0 then DELETED else if k == 32 then 65 else if k == 64 then 66 else if k < 96 then SPACE else 0)
  }

  function HoleDisk(): Sectors {
    _ => HoleSector()
  }

  lemma HoleByte(p: nat)
    requires p < SECTOR_SIZE
    ensures ByteAt(HoleDisk(), p) == HoleSector()[p]
  {
  }

  /** The field of one letter and seven spaces, or of three spaces. */
  lemma OneLetter(e: Entry, b: byte)
    requires e.Valid() && e.name[0] == b && b != 0 && b != SPACE && e.name[1] == SPACE && e.ext[0] == SPACE
    ensures FullName(e) == [b]
  {
    assert Trim(e.name[1..]) == [];
  }

  lemma HoleEntries()
    ensures DiskEntry(HoleDisk(), 0, 0).name[0] == DELETED && DiskEntry(HoleDisk(), 0, 2).name[0] == 66
    ensures FullName(DiskEntry(HoleDisk(), 0, 1)) == [65] && FullName(DiskEntry(HoleDisk(), 0, 2)) == [66]
  {
    HoleByte(0);
    HoleByte(32);
    HoleByte(33);
    HoleByte(40);
    HoleByte(64);
    HoleByte(65);
    HoleByte(72);
    hide ByteAt, FullName, HoleDisk;
    OneLetter(DiskEntry(HoleDisk(), 0, 1), 65);
    OneLetter(DiskEntry(HoleDisk(), 0, 2), 66);
  }

  lemma DifferentLetters()
    ensures !SameUpToCase([65], [66])
  {
    assert !SameLetter([65][0], [66][0]);
  }

  lemma HoleCounts()
    ensures EndsAt(HoleDisk(), 0, 3) && LiveEntries(HoleDisk(), 0, 3) == 2
    ensures !IsLive(HoleDisk(), 0, 0) && IsLive(HoleDisk(), 0, 2)
  {
    var disk := HoleDisk();
    HoleByte(0);
    HoleByte(32);
    HoleByte(64);
    HoleByte(96);
    hide ByteAt, HoleDisk;
    assert FirstByte(disk, 0, 0) == DELETED && FirstByte(disk, 0, 1) == 65;
    assert FirstByte(disk, 0, 2) == 66 && FirstByte(disk, 0, 3) == 0;
    assert LiveEntries(disk, 0, 1) == 0 && LiveEntries(disk, 0, 2) == 1;
  }

  /** Two entries are counted and loaded, the deleted one and A; B is there and is not found. */
  lemma HoleExample()
    ensures EndsAt(HoleDisk(), 0, 3) && LiveEntries(HoleDisk(), 0, 3) == 2
    ensures Present(HoleDisk(), 0, 3, [66]) && !Found(DiskEntries(HoleDisk(), 0, 2), [66])
  {
    HoleCounts();
    HoleEntries();
    hide LiveEntries, DiskEntry, HoleDisk, FullName, IsLive, EndsAt, SameUpToCase;
    var disk := HoleDisk();
    SameAsItself([66]);
    assert Matches(DiskEntry(disk, 0, 2), [66]);
    DifferentLetters();
    DeletedMatchesNoLive(DiskEntry(disk, 0, 0), DiskEntry(disk, 0, 2));
    assert forall i :: 0 <= i < 2 ==> !Matches(DiskEntry(disk, 0, i), [66]);
  }
}
