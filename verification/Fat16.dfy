/** The FAT16 reading code itself (src/fs/fat/fat16.c), proved against FatChain. */
module Fat16 {
  import opened Config
  import opened DiskStream
  import opened FatChain
  import opened Directory

  /** struct fat_file_descriptor, with the directory item that it was opened on. */
  class FileDescriptor {
    const item: Entry
    var pos: nat

    constructor (item: Entry)
      ensures this.item == item && pos == 0
    {
      this.item := item;
      pos := 0;
    }

    /** fat16_stat, as far as the size goes */
    method Stat() returns (res: int, size: nat)
      ensures if item.IsDirectory() then res == -EINVARG else res == 0 && size == item.size
    {
      if item.IsDirectory() {
        return -EINVARG, 0;
      }
      return 0, item.size;
    }
  }

  lemma WrittenNothing(before: seq<byte>, s: seq<byte>)
    ensures Written(before, 0, []) == before && [] + s == s
  {
  }

  lemma Regrouped(a: seq<byte>, b: seq<byte>, c: seq<byte>)
    ensures a + (b + c) == (a + b) + c
  {
  }

  lemma WholeWritten(before: seq<byte>, s: seq<byte>)
    requires |before| == |s|
    ensures Written(before, 0, s) == s
  {
  }

  lemma NothingRead(disk: Sectors, v: Volume, c: nat, offset: nat, total: nat, before: seq<byte>, at: nat)
    requires v.sectorsPerCluster >= 1 && Walk(disk, v, c, Index(v, offset)).None? && at <= |before|
    ensures ReadBytes(disk, v, c, offset, total) == ([], -EIO) && Written(before, at, []) == before
  {
    hide Walk, Index;
  }

  lemma StartOfCluster(v: Volume, c: int)
    ensures ClusterPos(v, c) == (EndSector(v) + (c - 2) * v.sectorsPerCluster) * SECTOR_SIZE
  {
  }

  lemma Room(size: nat, nmemb: nat, i: nat)
    ensures size * 0 == 0 && size * (i + 1) == size * i + size
    ensures i < nmemb ==> size * i + size <= size * nmemb
  {
    if i < nmemb {
      MultiplesGrow(i + 1, nmemb, size);
    }
  }

  /** struct fat_private: the volume's layout, and one stream for the FAT and one for the clusters. */
  class FileSystem {
    const volume: Volume
    const disk: Disk
    const fatStream: Stream
    const clusterStream: Stream

    constructor (volume: Volume, disk: Disk)
      ensures this.volume == volume && this.disk == disk
      ensures fresh(fatStream) && fresh(clusterStream)
      ensures fatStream != clusterStream && fatStream.disk == disk && clusterStream.disk == disk
    {
      this.volume := volume;
      this.disk := disk;
      fatStream := new Stream(disk);
      clusterStream := new Stream(disk);
    }

    ghost predicate Valid() {
      && ValidVolume(volume) && fatStream != clusterStream
      && fatStream.disk == disk && clusterStream.disk == disk
    }

    /** fat16_get_fat_entry */
    method GetFatEntry(cluster: nat) returns (res: int)
      requires Valid() && cluster < 0x1_0000
      modifies fatStream, disk
      ensures res == FatEntry(disk.sectors, volume, cluster)
    {
      hide ByteAt, Written;
      var tablePosition := volume.reserved * SECTOR_SIZE;
      res := fatStream.Seek(tablePosition + cluster * FAT_ENTRY_SIZE);
      if res < 0 {
        return;
      }
      var result := new byte[FAT_ENTRY_SIZE](_ => 0);
      ghost var before := result[..];
      res := fatStream.Read(result, 0, FAT_ENTRY_SIZE);
      if res < 0 {
        return;
      }
      WholeWritten(before, Slice(disk.sectors, FatPos(volume, cluster), FAT_ENTRY_SIZE));
      assert result[..] == Slice(disk.sectors, FatPos(volume, cluster), FAT_ENTRY_SIZE);
      assert result[..][0] == result[0] && result[..][1] == result[1];
      var low: int, high: int := result[0], result[1];
      res := low + 256 * high;
    }

    /** fat16_get_cluster_for_offset: walks the chain from the start on every call. */
    method GetClusterForOffset(start: nat, offset: nat) returns (res: int)
      requires Valid() && start < 0x1_0000
      modifies fatStream, disk
      ensures res == match Walk(disk.sectors, volume, start, Index(volume, offset)) case None => -EIO case Some(c) => c
      ensures res < 0x1_0000
    {
      var size := volume.sectorsPerCluster * SECTOR_SIZE;
      var cluster: nat := start;
      var ahead := offset / size;
      assert ahead == Index(volume, offset);
      var i := 0;
      while i < ahead
        invariant i <= ahead && cluster < 0x1_0000
        invariant Walk(disk.sectors, volume, start, ahead) == Walk(disk.sectors, volume, cluster, ahead - i)
      {
        var entry := GetFatEntry(cluster);
        if entry == 0xFF8 || entry == 0xFFF {
          return -EIO;
        }
        if entry == 0xFF7 {
          return -EIO;
        }
        if entry == 0xFF0 || entry == 0xFF6 {
          return -EIO;
        }
        if entry == 0x00 {
          return -EIO;
        }
        cluster := entry;
        i := i + 1;
      }
      res := cluster;
    }

    /** fat16_read_internal_from_stream, into `out` from index `at` on */
    method ReadInternal(cluster: nat, offset: nat, total: nat, out: array<byte>, at: nat) returns (res: int)
      requires Valid() && cluster < 0x1_0000 && InReach(disk.sectors, volume, cluster, offset, total)
      requires at + total <= out.Length
      modifies fatStream, clusterStream, disk, out
      ensures res == ReadBytes(disk.sectors, volume, cluster, offset, total).1
      ensures out[..] == Written(old(out[..]), at, ReadBytes(disk.sectors, volume, cluster, offset, total).0)
      decreases total
    {
      hide Walk, ByteAt, Index, Within, ReadBytes, Slice, Written, ClusterPos;
      var size := volume.sectorsPerCluster * SECTOR_SIZE;
      var clusterToUse := GetClusterForOffset(cluster, offset);
      if clusterToUse < 0 {
        NothingRead(disk.sectors, volume, cluster, offset, total, out[..], at);
        return clusterToUse;
      }
      ReadBytesStep(disk.sectors, volume, cluster, offset, total, clusterToUse);
      var offsetInCluster := Within(volume, offset);
      var startingSector := EndSector(volume) + (clusterToUse - 2) * volume.sectorsPerCluster;
      var startingPos := startingSector * SECTOR_SIZE + offsetInCluster;
      assert startingPos == ClusterPos(volume, clusterToUse) + offsetInCluster by {
        StartOfCluster(volume, clusterToUse);
      }
      var totalToRead := if total > size then size else total;
      res := clusterStream.Seek(startingPos);
      if res != 0 {
        return;
      }
      ghost var before := out[..];
      res := clusterStream.Read(out, at, totalToRead);
      if res != 0 {
        return;
      }
      ghost var piece := Slice(disk.sectors, startingPos, totalToRead);
      var remaining := total - totalToRead;
      if remaining > 0 {
        res := ReadInternal(cluster, offset + totalToRead, remaining, out, at + totalToRead);
        Spliced(before, at, piece, ReadBytes(disk.sectors, volume, cluster, offset + totalToRead, remaining).0);
      }
    }

    /** fat16_read: `nmemb` blocks of `size` bytes from the descriptor's position on. */
    method Read(descriptor: FileDescriptor, size: nat, nmemb: nat, out: array<byte>) returns (res: int)
      requires Valid() && descriptor.item.cluster < 0x1_0000
      requires BlocksInReach(disk.sectors, volume, descriptor.item.cluster, descriptor.pos, size, nmemb)
      requires size * nmemb <= out.Length
      modifies fatStream, clusterStream, disk, out
      ensures var r := ReadBlocks(disk.sectors, volume, descriptor.item.cluster, descriptor.pos, size, nmemb);
              && |r.0| <= out.Length && res == (if r.1 < 0 then r.1 else nmemb)
              && out[..] == Written(old(out[..]), 0, r.0)
    {
      hide Walk, ReadBytes, Written, InReach;
      res := 0;
      var offset: nat, at: nat := descriptor.pos, 0;
      ghost var whole := ReadBlocks(disk.sectors, volume, descriptor.item.cluster, descriptor.pos, size, nmemb);
      ghost var done: seq<byte> := [];
      var i := 0;
      Room(size, nmemb, 0);
      WrittenNothing(out[..], whole.0);
      while i < nmemb
        invariant i <= nmemb && at == size * i && at <= out.Length && |done| == at
        invariant out[..] == Written(old(out[..]), 0, done)
        invariant BlocksInReach(disk.sectors, volume, descriptor.item.cluster, offset, size, nmemb - i)
        invariant var rest := ReadBlocks(disk.sectors, volume, descriptor.item.cluster, offset, size, nmemb - i);
                  whole == (done + rest.0, rest.1)
      {
        Room(size, nmemb, i);
        ghost var piece := ReadBytes(disk.sectors, volume, descriptor.item.cluster, offset, size);
        res := ReadInternal(descriptor.item.cluster, offset, size, out, at);
        Spliced(old(out[..]), 0, done, piece.0);
        Regrouped(done, piece.0,
          ReadBlocks(disk.sectors, volume, descriptor.item.cluster, offset + size, size, nmemb - i - 1).0);
        done := done + piece.0;
        if res < 0 {
          return;
        }
        at := at + size;
        offset := offset + size;
        i := i + 1;
      }
      assert done + [] == done;
      res := nmemb;
    }
  }
}
