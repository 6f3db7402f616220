/** Which names a directory's raw bytes give its entries, and which of them a lookup finds (src/fs/fat/fat16.c). */
module NamesOnDisk {
  import opened DiskStream
  import opened Directory
  import opened Lookup

  /** Field of `n` bytes at position `p`: `s`, and then a NUL or a space if there is room for one. */
  ghost predicate Stands(disk: Sectors, p: int, s: Bytes, n: nat) {
    && |s| <= n && 0 !in s && 0x20 !in s
    && (forall k :: 0 <= k < |s| ==> ByteAt(disk, p + k) == s[k])
    && (|s| < n ==> ByteAt(disk, p + |s|) == 0 || ByteAt(disk, p + |s|) == 0x20)
  }

  /** Entry `i` of the directory at `start`: 8 bytes of name, 3 of extension, 32 in all. */
  ghost predicate Named(disk: Sectors, start: int, i: nat, stem: Bytes, ext: Bytes) {
    Stands(disk, start + 32 * i, stem, 8) && Stands(disk, start + 32 * i + 8, ext, 3)
  }

  /** How a file is called that has this name and this extension. */
  function Joined(stem: Bytes, ext: Bytes): Bytes {
    if ext == [] then stem else stem + [0x2E] + ext
  }

  /** Some entry that is not deleted has the name, in whatever case. */
  ghost predicate HasFile(disk: Sectors, start: int, end: nat, name: Bytes) {
    exists i: nat, stem, ext :: i < end && ByteAt(disk, start + 32 * i) != 0xE5
      && Named(disk, start, i, stem, ext) && SameUpToCase(Joined(stem, ext), name)
  }

  // ---------- decoding ----------

  /** Where on the disk each byte of a decoded entry comes from. */
  lemma DiskEntryBytes(disk: Sectors, start: int, i: nat, k: nat)
    ensures k < 8 ==> DiskEntry(disk, start, i).name[k] == ByteAt(disk, start + 32 * i + k)
    ensures k < 3 ==> DiskEntry(disk, start, i).ext[k] == ByteAt(disk, start + 32 * i + 8 + k)
  {
    hide ByteAt;
    var bytes := Slice(disk, start + i * ENTRY_SIZE, ENTRY_SIZE);
    if k < 3 {
      assert bytes[8 + k] == ByteAt(disk, start + 32 * i + 8 + k);
    }
  }

  lemma FieldStands(disk: Sectors, p: int, field: Bytes)
    requires field == Slice(disk, p, |field|)
    ensures Stands(disk, p, Trim(field), |field|)
  {
    hide ByteAt, Trim, Slice;
    var s := Trim(field);
    forall k | 0 <= k < |s|
      ensures ByteAt(disk, p + k) == s[k]
    {
      assert field[k] == ByteAt(disk, p + k);
    }
    if |s| < |field| {
      assert field[|s|] == ByteAt(disk, p + |s|);
    }
  }

  lemma ByteOfString(disk: Sectors, p: int, s: Bytes, n: nat, k: nat)
    requires Stands(disk, p, s, n) && k < |s|
    ensures ByteAt(disk, p + k) != 0 && ByteAt(disk, p + k) != 0x20
  {
    hide ByteAt;
    assert s[k] in s;
  }

  lemma NotLonger(disk: Sectors, p: int, s: Bytes, t: Bytes, n: nat)
    requires Stands(disk, p, s, n) && Stands(disk, p, t, n)
    ensures |t| <= |s|
  {
    hide ByteAt;
    if |s| < |t| {
      ByteOfString(disk, p, t, n, |s|);
    }
  }

  /** A field holds no other string than its trimmed bytes. */
  lemma StandsOnce(disk: Sectors, p: int, s: Bytes, t: Bytes, n: nat)
    requires Stands(disk, p, s, n) && Stands(disk, p, t, n)
    ensures s == t
  {
    hide ByteAt;
    NotLonger(disk, p, s, t, n);
    NotLonger(disk, p, t, s, n);
    assert forall k :: 0 <= k < |s| ==> s[k] == ByteAt(disk, p + k) == t[k];
  }

  /** A field that is padded with spaces holds what stands before them. */
  lemma PaddedStands(disk: Sectors, p: int, s: Bytes, n: nat)
    requires |s| <= n && 0 !in s && 0x20 !in s
    requires Slice(disk, p, n) == s + seq(n - |s|, _ => 0x20)
    ensures Stands(disk, p, s, n)
  {
    hide ByteAt;
    forall k | 0 <= k < n
      ensures ByteAt(disk, p + k) == if k < |s| then s[k] else 0x20
    {
      assert Slice(disk, p, n)[k] == ByteAt(disk, p + k);
    }
    if |s| < n {
      assert Slice(disk, p, n)[|s|] == ByteAt(disk, p + |s|);
    }
  }

  lemma EntryFields(disk: Sectors, start: int, i: nat)
    ensures DiskEntry(disk, start, i).name == Slice(disk, start + 32 * i, 8)
    ensures DiskEntry(disk, start, i).ext == Slice(disk, start + 32 * i + 8, 3)
  {
    hide ByteAt, DiskEntry;
    var e := DiskEntry(disk, start, i);
    forall k | 0 <= k < 8
      ensures e.name[k] == ByteAt(disk, start + 32 * i + k)
    {
      DiskEntryBytes(disk, start, i, k);
    }
    forall k | 0 <= k < 3
      ensures e.ext[k] == ByteAt(disk, start + 32 * i + 8 + k)
    {
      DiskEntryBytes(disk, start, i, k);
    }
    assert e.name == Slice(disk, start + 32 * i, 8);
    assert e.ext == Slice(disk, start + 32 * i + 8, 3);
  }

  lemma EntryStands(disk: Sectors, start: int, i: nat)
    ensures var e := DiskEntry(disk, start, i); Named(disk, start, i, Trim(e.name), Trim(e.ext))
  {
    hide ByteAt, Trim, Stands, DiskEntry, Slice;
    var e := DiskEntry(disk, start, i);
    EntryFields(disk, start, i);
    FieldStands(disk, start + 32 * i, e.name);
    FieldStands(disk, start + 32 * i + 8, e.ext);
  }

  /** The rendered name of an entry is its raw name, a dot and its raw extension. */
  lemma RenderedIsNamed(disk: Sectors, start: int, i: nat, stem: Bytes, ext: Bytes)
    requires Named(disk, start, i, stem, ext)
    ensures FullName(DiskEntry(disk, start, i)) == Joined(stem, ext)
  {
    var e := DiskEntry(disk, start, i);
    EntryStands(disk, start, i);
    hide Stands, DiskEntry;
    StandsOnce(disk, start + 32 * i, stem, Trim(e.name), 8);
    StandsOnce(disk, start + 32 * i + 8, ext, Trim(e.ext), 3);
    FirstOfTrim(e.ext);
  }

  // ---------- lookups ----------

  /** What the lookups are proved to find is what the bytes on the disk name. */
  lemma PresentExactlyWhen(disk: Sectors, start: int, end: nat, name: Bytes)
    ensures Present(disk, start, end, name) <==> HasFile(disk, start, end, name)
  {
    hide Named, FullName, DiskEntry, SameUpToCase, Trim, Joined, ByteAt;
    if Present(disk, start, end, name) {
      var i: nat :| i < end && IsLive(disk, start, i) && Matches(DiskEntry(disk, start, i), name);
      EntryStands(disk, start, i);
      var e := DiskEntry(disk, start, i);
      RenderedIsNamed(disk, start, i, Trim(e.name), Trim(e.ext));
    }
    if HasFile(disk, start, end, name) {
      var i: nat, stem, ext :| i < end && ByteAt(disk, start + 32 * i) != 0xE5
        && Named(disk, start, i, stem, ext) && SameUpToCase(Joined(stem, ext), name);
      RenderedIsNamed(disk, start, i, stem, ext);
      assert IsLive(disk, start, i) && Matches(DiskEntry(disk, start, i), name);
    }
  }

  /** The first byte of an entry tells whether it is there. */
  lemma RawDirectory(disk: Sectors, start: int, end: nat)
    ensures EndsAt(disk, start, end)
       <==> ByteAt(disk, start + 32 * end) == 0 && forall i: nat :: i < end ==> ByteAt(disk, start + 32 * i) != 0
    ensures forall i: nat :: IsLive(disk, start, i) <==> ByteAt(disk, start + 32 * i) != 0xE5
  {
    hide ByteAt;
    forall i: nat
      ensures FirstByte(disk, start, i) == ByteAt(disk, start + 32 * i)
    {
    }
    hide FirstByte;
    if EndsAt(disk, start, end) {
      forall i: nat | i < end
        ensures ByteAt(disk, start + 32 * i) != 0
      {
        assert FirstByte(disk, start, i) != 0;
      }
    }
  }

  /**
   In a directory that ends at entry `end` and has no live entry behind a deleted one, a name is found
   exactly when the raw bytes of a live entry name it, in whatever case.
   */
  lemma FoundExactlyWhen(disk: Sectors, start: int, end: nat, name: Bytes)
    requires ByteAt(disk, start + 32 * end) == 0 && forall i: nat :: i < end ==> ByteAt(disk, start + 32 * i) != 0
    requires forall i: nat, j: nat :: i < j < end && ByteAt(disk, start + 32 * i) == 0xE5 ==>
               ByteAt(disk, start + 32 * j) == 0xE5
    ensures EndsAt(disk, start, end) && NoHole(disk, start, end)
    ensures Found(DiskEntries(disk, start, LiveEntries(disk, start, end)), name) <==> HasFile(disk, start, end, name)
  {
    RawDirectory(disk, start, end);
    hide ByteAt, Present, HasFile, Found, DiskEntry, LiveEntries, IsLive, EndsAt;
    LookupWithoutHole(disk, start, end, name);
    PresentExactlyWhen(disk, start, end, name);
  }

  /** The entry "BLANK   ELF" is found as blank.elf, as the kernel asks for it. */
  lemma BlankIsFound(disk: Sectors, start: int, end: nat, i: nat)
    requires ByteAt(disk, start + 32 * end) == 0 && forall j: nat :: j < end ==> ByteAt(disk, start + 32 * j) != 0
    requires forall j: nat :: j < end ==> ByteAt(disk, start + 32 * j) != 0xE5
    requires i < end && Slice(disk, start + 32 * i, 8) == [66, 76, 65, 78, 75, 32, 32, 32]
    requires Slice(disk, start + 32 * i + 8, 3) == [69, 76, 70]
    ensures Found(DiskEntries(disk, start, LiveEntries(disk, start, end)), [98, 108, 97, 110, 107, 46, 101, 108, 102])
  {
    hide ByteAt, Found, DiskEntry, LiveEntries;
    var stem, ext: Bytes := [66, 76, 65, 78, 75], [69, 76, 70];
    assert stem + seq(3, _ => 0x20) == [66, 76, 65, 78, 75, 32, 32, 32] && ext + seq(0, _ => 0x20) == ext;
    PaddedStands(disk, start + 32 * i, stem, 8);
    PaddedStands(disk, start + 32 * i + 8, ext, 3);
    BlankUpToCase(stem, ext);
    assert Named(disk, start, i, stem, ext);
    FoundExactlyWhen(disk, start, end, [98, 108, 97, 110, 107, 46, 101, 108, 102]);
  }

  lemma BlankUpToCase(stem: Bytes, ext: Bytes)
    requires stem == [66, 76, 65, 78, 75] && ext == [69, 76, 70]
    ensures SameUpToCase(Joined(stem, ext), [98, 108, 97, 110, 107, 46, 101, 108, 102])
  {
    assert Joined(stem, ext) == [66, 76, 65, 78, 75, 46, 69, 76, 70];
  }
}
