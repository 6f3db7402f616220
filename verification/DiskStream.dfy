/** Byte-range reads on top of whole-sector reads (src/disk/streamer.c). */
module DiskStream {
  const SECTOR_SIZE := 512
  /** C's int is 32 bits wide; positions beyond it are outside what the code handles. */
  const INT_LIMIT := 0x8000_0000

  type byte = x: int | 0 <= x < 256
  type Sector = s: seq<byte> | |s| == SECTOR_SIZE witness seq(SECTOR_SIZE, _ => 0)

  /** The whole disk, sector by sector. */
  type Sectors = nat -> Sector

  /** The disk as one flat run of bytes; nothing lies before its start. */
  function ByteAt(disk: Sectors, p: int): byte {
    if p < 0 then 0 else disk(p / SECTOR_SIZE)[p % SECTOR_SIZE]
  }

  function Slice(disk: Sectors, p: int, n: nat): (s: seq<byte>)
    ensures |s| == n
    ensures forall i :: 0 <= i < n ==> s[i] == ByteAt(disk, p + i)
  {
    seq<byte>(n, i requires 0 <= i < n => ByteAt(disk, p + i))
  }

  lemma SliceSplits(disk: Sectors, p: nat, a: nat, b: nat)
    ensures Slice(disk, p, a + b) == Slice(disk, p, a) + Slice(disk, p + a, b)
  {
  }

  /** The numbers `a`, `a + 1`, ..., `b`. */
  function UpTo(a: nat, b: nat): (s: seq<nat>)
    requires a <= b
    ensures |s| == b - a + 1 && forall i :: 0 <= i < |s| ==> s[i] == a + i
  {
    seq(b - a + 1, i requires 0 <= i < b - a + 1 => a + i)
  }

  lemma UpToSplits(a: nat, b: nat)
    requires a < b
    ensures UpTo(a, b) == [a] + UpTo(a + 1, b)
  {
  }

  /** Bytes within one sector. */
  lemma SliceOfSector(disk: Sectors, p: nat, n: nat)
    requires p % SECTOR_SIZE + n <= SECTOR_SIZE
    ensures Slice(disk, p, n) == disk(p / SECTOR_SIZE)[p % SECTOR_SIZE..p % SECTOR_SIZE + n]
  {
    var inSector := disk(p / SECTOR_SIZE)[p % SECTOR_SIZE..p % SECTOR_SIZE + n];
    forall i | 0 <= i < n
      ensures Slice(disk, p, n)[i] == inSector[i]
    {
      assert (p + i) / SECTOR_SIZE == p / SECTOR_SIZE && (p + i) % SECTOR_SIZE == p % SECTOR_SIZE + i;
    }
  }

  /** `before` with `s` written over it from index `at` on. */
  function Written(before: seq<byte>, at: nat, s: seq<byte>): seq<byte>
    requires at + |s| <= |before|
  {
    before[..at] + s + before[at + |s|..]
  }

  lemma Spliced(before: seq<byte>, at: nat, s: seq<byte>, t: seq<byte>)
    requires at + |s| + |t| <= |before|
    ensures Written(Written(before, at, s), at + |s|, t) == Written(before, at, s + t)
  {
  }

  /** The copying loop: `n` bytes of `buf` from `offset` on go to `out` from `at` on. */
  method CopyOut(out: array<byte>, at: nat, buf: Sector, offset: nat, n: nat)
    requires at + n <= out.Length && offset + n <= SECTOR_SIZE
    modifies out
    ensures out[..] == Written(old(out[..]), at, buf[offset..offset + n])
  {
    var i := 0;
    while i < n
      invariant i <= n
      invariant forall k :: at <= k < at + i ==> out[k] == buf[offset + k - at]
      invariant forall k :: 0 <= k < out.Length && !(at <= k < at + i) ==> out[k] == old(out[k])
    {
      out[at + i] := buf[offset + i];
      i := i + 1;
    }
  }

  class Disk {
    const sectors: Sectors
    /** Every sector read so far, in order. */
    ghost var touched: seq<nat>

    constructor (sectors: Sectors)
      ensures this.sectors == sectors && touched == []
    {
      this.sectors := sectors;
      touched := [];
    }

    /** disk_read_block of one sector */
    method ReadBlock(lba: nat) returns (buf: Sector)
      modifies this`touched
      ensures buf == sectors(lba) && touched == old(touched) + [lba]
    {
      buf := sectors(lba);
      touched := touched + [lba];
    }
  }

  class Stream {
    const disk: Disk
    var pos: nat

    constructor (disk: Disk)
      ensures this.disk == disk && pos == 0
    {
      this.disk := disk;
      pos := 0;
    }

    /** diskstreamer_seek */
    method Seek(pos: nat) returns (res: int)
      modifies this`pos
      ensures res == 0 && this.pos == pos
    {
      this.pos := pos;
      res := 0;
    }

    /**
     diskstreamer_read into `out` from index `at`: copies exactly the next `total` bytes,
     advances by as many, and reads each sector from the first to the one after the last byte once.
     */
    method Read(out: array<byte>, at: nat, total: nat) returns (res: int)
      requires at + total <= out.Length && pos + total < INT_LIMIT
      modifies this`pos, disk`touched, out
      ensures res == 0 && pos == old(pos) + total
      ensures out[..] == Written(old(out[..]), at, Slice(disk.sectors, old(pos), total))
      ensures disk.touched == old(disk.touched) + UpTo(old(pos) / SECTOR_SIZE, (old(pos) + total) / SECTOR_SIZE)
      decreases total
    {
      hide Slice, Written, UpTo;
      var sector, offset := pos / SECTOR_SIZE, pos % SECTOR_SIZE;
      var totalToRead := total;
      var overflow := offset + totalToRead >= SECTOR_SIZE;
      if overflow {
        totalToRead := totalToRead - (offset + totalToRead - SECTOR_SIZE);
      }
      var buf := disk.ReadBlock(sector);
      ghost var start, before := pos, out[..];
      CopyOut(out, at, buf, offset, totalToRead);
      SliceOfSector(disk.sectors, start, totalToRead);
      pos := pos + totalToRead;
      res := 0;
      if overflow {
        res := Read(out, at + totalToRead, total - totalToRead);
        SliceSplits(disk.sectors, start, totalToRead, total - totalToRead);
        Spliced(before, at, Slice(disk.sectors, start, totalToRead),
          Slice(disk.sectors, start + totalToRead, total - totalToRead));
        UpToSplits(sector, (start + total) / SECTOR_SIZE);
      }
    }
  }
}
