/**
 Opening a file of the root directory and reading it, as a program is read before it is loaded
 (src/loader/formats/elfloader.c).
 */
module Files {
  import opened Config
  import opened DiskStream
  import opened FatChain
  import opened Directory
  import opened Fat16
  import opened Lookup
  import opened NamesOnDisk

  // ---------- the numbers of an entry ----------

  /** First cluster in the entry's bytes 26, 27, 20 and 21, size in its bytes 28 to 31, kind in its byte 11. */
  ghost predicate Describes(disk: Sectors, start: int, i: nat, cluster: nat, size: nat, directory: bool) {
    var p := start + 32 * i;
    var c0: int, c1: int := ByteAt(disk, p + 26), ByteAt(disk, p + 27);
    var c2: int, c3: int := ByteAt(disk, p + 20), ByteAt(disk, p + 21);
    var s0: int, s1: int := ByteAt(disk, p + 28), ByteAt(disk, p + 29);
    var s2: int, s3: int := ByteAt(disk, p + 30), ByteAt(disk, p + 31);
    && cluster == c0 + 0x100 * c1 + 0x1_0000 * c2 + 0x100_0000 * c3
    && size == s0 + 0x100 * s1 + 0x1_0000 * s2 + 0x100_0000 * s3
    && (directory <==> ByteAt(disk, p + 11) / 16 % 2 == 1)
  }

  /** A decoded entry has the numbers that its raw bytes give. */
  lemma EntryDescribes(disk: Sectors, start: int, i: nat)
    ensures var e := DiskEntry(disk, start, i); Describes(disk, start, i, e.cluster, e.size, e.IsDirectory())
  {
    hide ByteAt;
    assert start + i * ENTRY_SIZE == start + 32 * i;
  }

  // ---------- which file a name opens ----------

  /** Entry `i` is live and called `name`, in whatever case, and holds a file of `size` bytes from `cluster` on. */
  ghost predicate IsFile(disk: Sectors, start: int, end: nat, i: nat, name: Bytes, cluster: nat, size: nat) {
    && i < end && ByteAt(disk, start + 32 * i) != 0xE5 && Describes(disk, start, i, cluster, size, false)
    && exists stem, ext :: Named(disk, start, i, stem, ext) && SameUpToCase(Joined(stem, ext), name)
  }

  /** Without holes and with names all different, looking a name up can only give the file that has it. */
  lemma OnlyThatFile(disk: Sectors, start: int, end: nat, i: nat, name: Bytes, cluster: nat, size: nat, j: nat)
    requires NoHole(disk, start, end) && DistinctNames(disk, start, end)
    requires IsFile(disk, start, end, i, name, cluster, size)
    requires j < LiveEntries(disk, start, end) && Matches(DiskEntry(disk, start, j), name)
    ensures i == j && LiveEntries(disk, start, end) <= end
    ensures var e := DiskEntry(disk, start, i); e.cluster == cluster && e.size == size && !e.IsDirectory()
  {
    RawDirectory(disk, start, end);
    LiveAtMost(disk, start, end);
    hide ByteAt, LiveEntries, NoHole, Named, FullName, SameUpToCase, Joined, DiskEntry, EndsAt, LegalEntry, Describes;
    var stem, ext :| Named(disk, start, i, stem, ext) && SameUpToCase(Joined(stem, ext), name);
    RenderedIsNamed(disk, start, i, stem, ext);
    LoadedAreLive(disk, start, end, j);
    var e, f := DiskEntry(disk, start, i), DiskEntry(disk, start, j);
    SameEntryName(FullName(e), FullName(f), name);
    NamesAreUnambiguous(e, f);
    SameNumbers(disk, start, i, cluster, size);
  }

  lemma SameNumbers(disk: Sectors, start: int, i: nat, cluster: nat, size: nat)
    requires Describes(disk, start, i, cluster, size, false)
    ensures var e := DiskEntry(disk, start, i); e.cluster == cluster && e.size == size && !e.IsDirectory()
  {
    EntryDescribes(disk, start, i);
    hide ByteAt, DiskEntry;
  }

  lemma FoundIfNamed(disk: Sectors, start: int, end: nat, name: Bytes)
    requires NoHole(disk, start, end)
    ensures Found(DiskEntries(disk, start, LiveEntries(disk, start, end)), name) <==> HasFile(disk, start, end, name)
  {
    hide LiveEntries, NoHole, HasFile, Present, DiskEntry, Found;
    LookupWithoutHole(disk, start, end, name);
    PresentExactlyWhen(disk, start, end, name);
  }

  lemma FileHasName(disk: Sectors, start: int, end: nat, i: nat, name: Bytes, cluster: nat, size: nat)
    requires IsFile(disk, start, end, i, name, cluster, size)
    ensures HasFile(disk, start, end, name)
  {
    hide ByteAt, Named, Joined, SameUpToCase, Describes;
  }

  /** The file that a name opens, and what one block of its size reads from it. */
  lemma OpenedFile(disk: Sectors, v: Volume, start: int, end: nat, i: nat, name: Bytes, cluster: nat, size: nat,
                   found: nat)
    requires NoHole(disk, start, end) && DistinctNames(disk, start, end)
    requires IsFile(disk, start, end, i, name, cluster, size)
    requires found < LiveEntries(disk, start, end) && Matches(DiskEntry(disk, start, found), name)
    requires Covers(disk, v, cluster, size) && size >= 1
    ensures var e := DiskEntry(disk, start, found); e.cluster == cluster && e.size == size && !e.IsDirectory()
    ensures ReadBlocks(disk, v, cluster, 0, size, 1) == (LogicalBytes(disk, v, cluster, 0, size), 0)
  {
    hide LiveEntries, NoHole, DistinctNames, IsFile, Matches, DiskEntry, Walk, LogicalByte, LogicalBytes, ReadBlocks,
      Index;
    OnlyThatFile(disk, start, end, i, name, cluster, size, found);
    WholeFileRead(disk, v, cluster, size);
  }

  // ---------- opening and reading ----------

  /** fat16_open of a name in the root directory, for reading. */
  method OpenInRoot(stream: Stream, v: Volume, name: Bytes, ghost end: nat)
    returns (descriptor: FileDescriptor?, ghost found: int)
    requires EndsAt(stream.disk.sectors, RootSector(v) * SECTOR_SIZE, end) && end <= v.rootEntries && 0 !in name
    requires RootSector(v) * SECTOR_SIZE + (v.rootEntries + 1) * ENTRY_SIZE < INT_LIMIT
    modifies stream, stream.disk
    ensures var disk, start := stream.disk.sectors, RootSector(v) * SECTOR_SIZE;
            && (descriptor == null <==> !Found(DiskEntries(disk, start, LiveEntries(disk, start, end)), name))
            && (descriptor != null ==>
                  && fresh(descriptor) && descriptor.pos == 0 && 0 <= found < LiveEntries(disk, start, end)
                  && descriptor.item == DiskEntry(disk, start, found) && Matches(descriptor.item, name))
  {
    hide LiveEntries, EndsAt, RootSector, NoHole, Matches, Present, DiskEntry, Found;
    var index, item := FindInRoot(stream, v, name, end);
    found := index;
    if index == -1 {
      return null, -1;
    }
    descriptor := new FileDescriptor(item);
  }

  /** What the reads of the file may need: every file that can be opened lies low enough on the disk. */
  ghost predicate FilesInReach(disk: Sectors, v: Volume, start: int, n: nat)
    requires v.sectorsPerCluster >= 1
  {
    forall i: nat :: i < n && !DiskEntry(disk, start, i).IsDirectory() ==>
      var e := DiskEntry(disk, start, i); e.cluster < 0x1_0000 && BlocksInReach(disk, v, e.cluster, 0, e.size, 1)
  }

  /** fopen, fstat, kzalloc and fread of a program in the root directory, with the memory that it is read into. */
  method ReadProgram(fs: FileSystem, stream: Stream, name: Bytes, ghost end: nat)
    returns (res: int, memory: array<byte>)
    requires fs.Valid() && stream.disk == fs.disk && stream != fs.fatStream && stream != fs.clusterStream
    requires EndsAt(fs.disk.sectors, RootSector(fs.volume) * SECTOR_SIZE, end) && end <= fs.volume.rootEntries
    requires 0 !in name
    requires RootSector(fs.volume) * SECTOR_SIZE + (fs.volume.rootEntries + 1) * ENTRY_SIZE < INT_LIMIT
    requires FilesInReach(fs.disk.sectors, fs.volume, RootSector(fs.volume) * SECTOR_SIZE,
                          LiveEntries(fs.disk.sectors, RootSector(fs.volume) * SECTOR_SIZE, end))
    modifies fs.fatStream, fs.clusterStream, fs.disk, stream
    ensures fresh(memory)
    ensures forall i, cluster, size ::
              var disk, start := fs.disk.sectors, RootSector(fs.volume) * SECTOR_SIZE;
              NoHole(disk, start, end) && DistinctNames(disk, start, end)
                && IsFile(disk, start, end, i, name, cluster, size)
              && Covers(disk, fs.volume, cluster, size) && size >= 1 ==>
                res >= 0 && memory[..] == LogicalBytes(disk, fs.volume, cluster, 0, size)
    ensures var disk, start := fs.disk.sectors, RootSector(fs.volume) * SECTOR_SIZE;
            NoHole(disk, start, end) && !HasFile(disk, start, end, name) ==> res == -EIO
  {
    hide LiveEntries, EndsAt, RootSector, NoHole, Matches, Present, DiskEntry, Found, ReadBlocks, Written,
      BlocksInReach, IsFile, DistinctNames, Covers, LogicalBytes, HasFile;
    ghost var disk, v, start := fs.disk.sectors, fs.volume, RootSector(fs.volume) * SECTOR_SIZE;
    memory := new byte[0];
    ghost var live := LiveEntries(disk, start, end);
    var descriptor, found := OpenInRoot(stream, fs.volume, name, end);
    if NoHole(disk, start, end) {
      FoundIfNamed(disk, start, end, name);
    }
    forall i, cluster, size | IsFile(disk, start, end, i, name, cluster, size)
      ensures HasFile(disk, start, end, name)
    {
      FileHasName(disk, start, end, i, name, cluster, size);
    }
    if descriptor == null {
      return -EIO, memory;
    }
    forall i, cluster, size | NoHole(disk, start, end) && DistinctNames(disk, start, end)
        && IsFile(disk, start, end, i, name, cluster, size) && Covers(disk, v, cluster, size) && size >= 1
      ensures descriptor.item.cluster == cluster && descriptor.item.size == size && !descriptor.item.IsDirectory()
      ensures ReadBlocks(disk, v, cluster, 0, size, 1) == (LogicalBytes(disk, v, cluster, 0, size), 0)
    {
      OpenedFile(disk, v, start, end, i, name, cluster, size, found);
    }
    var size;
    res, size := descriptor.Stat();
    if res < 0 {
      return;
    }
    memory := new byte[size](_ => 0);
    ghost var before := memory[..];
    res := fs.Read(descriptor, size, 1, memory);
    ghost var bytes := ReadBlocks(disk, v, descriptor.item.cluster, 0, size, 1).0;
    if |bytes| == size {
      WholeWritten(before, bytes);
    }
  }
}
