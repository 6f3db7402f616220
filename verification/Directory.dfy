/** Directory entries, their rendered names, and lookup by name (src/fs/fat/fat16.c). */
module Directory {
  import opened Config
  import opened DiskStream

  const NAME_SIZE := 8
  const EXT_SIZE := 3
  const ENTRY_SIZE := 32

  const SPACE: byte := 0x20
  const DOT: byte := 0x2E
  const DELETED: byte := 0xE5

  type Bytes = seq<byte>

  const SUBDIRECTORY := 0x10

  /**
   The parts of struct fat_directory_item that opening and reading use; `cluster` joins the two halves of
   its number.
   */
  datatype Entry = Entry(name: Bytes, ext: Bytes, attribute: byte, cluster: nat, size: nat) {
    predicate Valid() {
      |name| == NAME_SIZE && |ext| == EXT_SIZE
    }

    predicate IsDirectory() {
      attribute / SUBDIRECTORY % 2 == 1
    }
  }

  // ---------- rendered names ----------

  /** fat16_to_proper_string: the bytes before the first NUL or space. */
  function Trim(s: Bytes): (r: Bytes)
    ensures |r| <= |s| && r == s[..|r|]
    ensures forall i :: 0 <= i < |r| ==> r[i] != 0 && r[i] != SPACE
    ensures |r| < |s| ==> s[|r|] == 0 || s[|r|] == SPACE
  {
    if s == [] || s[0] == 0 || s[0] == SPACE then [] else [s[0]] + Trim(s[1..])
  }

  /** fat16_get_full_relative_filename */
  function FullName(e: Entry): Bytes
    requires e.Valid()
  {
    if e.ext[0] != 0 && e.ext[0] != SPACE then Trim(e.name) + [DOT] + Trim(e.ext) else Trim(e.name)
  }

  /** tolower on bytes */
  function Lower(b: byte): byte {
    if 65 <= b <= 90 then b + 32 else b
  }

  /** The same byte, or the upper-case and the lower-case form of one letter. */
  predicate SameLetter(a: byte, b: byte) {
    a == b || (65 <= a <= 90 && b == a + 32) || (65 <= b <= 90 && a == b + 32)
  }

  /** Equal but for the case of letters. */
  predicate SameUpToCase(s: Bytes, t: Bytes) {
    |s| == |t| && forall i :: 0 <= i < |s| ==> SameLetter(s[i], t[i])
  }

  /** Comparing what tolower gives is comparing up to case. */
  lemma LowerExactlyWhen(a: byte, b: byte)
    ensures Lower(a) == Lower(b) <==> SameLetter(a, b)
  {
  }

  /** So two strings fold to the same one exactly when they agree up to case. */
  lemma FoldExactlyWhen(s: Bytes, t: Bytes)
    ensures SameUpToCase(s, t) <==> |s| == |t| && forall i :: 0 <= i < |s| ==> Lower(s[i]) == Lower(t[i])
  {
    hide Lower, SameLetter;
    forall i | 0 <= i < |s| && i < |t|
      ensures SameLetter(s[i], t[i]) <==> Lower(s[i]) == Lower(t[i])
    {
      LowerExactlyWhen(s[i], t[i]);
    }
  }

  /**
   A name byte of section 6.1 of the Microsoft FAT specification, as far as rendering can tell: upper
   case, no dot.
   */
  predicate LegalByte(b: byte) {
    b != 0 && b != SPACE && b != DOT && !(97 <= b <= 122)
  }

  /** Legal bytes, padded with spaces. */
  ghost predicate LegalField(s: Bytes) {
    exists k :: Padded(s, k)
  }

  ghost predicate Padded(s: Bytes, k: int) {
    0 <= k <= |s| && (forall i :: 0 <= i < k ==> LegalByte(s[i])) && (forall i :: k <= i < |s| ==> s[i] == SPACE)
  }

  ghost predicate LegalEntry(e: Entry) {
    e.Valid() && LegalField(e.name) && LegalField(e.ext)
  }

  lemma TrimOfLegal(s: Bytes)
    requires LegalField(s)
    ensures forall i :: 0 <= i < |Trim(s)| ==> LegalByte(Trim(s)[i])
    ensures forall i :: |Trim(s)| <= i < |s| ==> s[i] == SPACE
  {
    var k :| Padded(s, k);
    TrimOfPadded(s, k);
  }

  lemma {:induction false} TrimOfPadded(s: Bytes, k: int)
    requires Padded(s, k)
    ensures |Trim(s)| == k
    decreases k
  {
    if k > 0 {
      assert Padded(s[1..], k - 1);
      TrimOfPadded(s[1..], k - 1);
    }
  }

  /** A padded field can be read back from its trimmed form. */
  lemma TrimIsInjective(s: Bytes, t: Bytes)
    requires LegalField(s) && LegalField(t) && |s| == |t| && Trim(s) == Trim(t)
    ensures s == t
  {
    TrimOfLegal(s);
    TrimOfLegal(t);
    forall i | 0 <= i < |s|
      ensures s[i] == t[i]
    {
      if i < |Trim(s)| {
        assert s[i] == Trim(s)[i] == t[i];
      }
    }
  }

  /** Without lower-case letters there is no difference in case. */
  lemma UpperCaseIsUnique(a: Bytes, b: Bytes)
    requires forall i :: 0 <= i < |a| ==> !(97 <= a[i] <= 122)
    requires forall i :: 0 <= i < |b| ==> !(97 <= b[i] <= 122)
    requires SameUpToCase(a, b)
    ensures a == b
  {
  }

  lemma FirstDot(a: Bytes, x: Bytes)
    requires DOT !in a
    ensures (a + [DOT] + x)[|a|] == DOT
    ensures forall i :: 0 <= i < |a| ==> (a + [DOT] + x)[i] != DOT
  {
  }

  /** The dot tells a rendered name's two parts apart. */
  lemma DotSplits(a: Bytes, x: Bytes, b: Bytes, y: Bytes)
    requires DOT !in a && DOT !in b && a + [DOT] + x == b + [DOT] + y
    ensures a == b && x == y
  {
    var s := a + [DOT] + x;
    FirstDot(a, x);
    FirstDot(b, y);
    assert a == s[..|a|] && b == s[..|b|];
    assert x == s[|a| + 1..] && y == s[|b| + 1..];
  }

  lemma DotOnlyInOne(a: Bytes, x: Bytes, b: Bytes)
    requires DOT !in b
    ensures a + [DOT] + x != b
  {
    assert (a + [DOT] + x)[|a|] == DOT;
  }

  lemma FullNameParts(e: Entry)
    requires LegalEntry(e)
    ensures FullName(e) == if Trim(e.ext) == [] then Trim(e.name) else Trim(e.name) + [DOT] + Trim(e.ext)
    ensures DOT !in Trim(e.name) && DOT !in Trim(e.ext)
    ensures forall i :: 0 <= i < |FullName(e)| ==> !(97 <= FullName(e)[i] <= 122)
  {
    TrimOfLegal(e.name);
    TrimOfLegal(e.ext);
  }

  /** Two legal entries whose rendered names agree, even up to case, have the same name fields. */
  lemma NamesAreUnambiguous(e: Entry, f: Entry)
    requires LegalEntry(e) && LegalEntry(f) && SameUpToCase(FullName(e), FullName(f))
    ensures e.name == f.name && e.ext == f.ext
  {
    hide Trim, LegalField, SameUpToCase;
    FullNameParts(e);
    FullNameParts(f);
    UpperCaseIsUnique(FullName(e), FullName(f));
    var a, x, b, y := Trim(e.name), Trim(e.ext), Trim(f.name), Trim(f.ext);
    hide FullName;
    if x != [] && y != [] {
      DotSplits(a, x, b, y);
    } else if x != [] {
      DotOnlyInOne(a, x, b);
    } else if y != [] {
      DotOnlyInOne(b, y, a);
    }
    TrimIsInjective(e.name, f.name);
    TrimIsInjective(e.ext, f.ext);
  }

  // ---------- lookup ----------

  ghost predicate Matches(e: Entry, name: Bytes)
    requires e.Valid()
  {
    SameUpToCase(FullName(e), name)
  }

  /** The byte at index `i` of a NUL-terminated string whose characters are `s`. */
  function CharAt(s: Bytes, i: nat): byte
    requires i <= |s|
  {
    if i < |s| then s[i] else 0
  }

  /** istrncmp on two NUL-terminated strings, at most `n` characters. */
  method Istrncmp(a: Bytes, b: Bytes, n: nat) returns (res: int)
    requires 0 !in a && 0 !in b && |a| < n
    ensures res == 0 <==> SameUpToCase(a, b)
  {
    var i := 0;
    while i < n
      invariant i <= |a| && i <= |b|
      invariant forall k :: 0 <= k < i ==> Lower(a[k]) == Lower(b[k])
      decreases n - i
    {
      var u1: int, u2: int := CharAt(a, i), CharAt(b, i);
      if u1 != u2 && Lower(u1) != Lower(u2) {
        DifferAt(a, b, i);
        return u1 - u2;
      }
      if u1 == 0 {
        SameLength(a, b, i);
        return 0;
      }
      i := i + 1;
    }
    res := 0;
  }

  lemma DifferAt(a: Bytes, b: Bytes, i: nat)
    requires 0 !in a && 0 !in b && i <= |a| && i <= |b| && Lower(CharAt(a, i)) != Lower(CharAt(b, i))
    ensures !SameUpToCase(a, b)
  {
    FoldExactlyWhen(a, b);
  }

  lemma SameLength(a: Bytes, b: Bytes, i: nat)
    requires 0 !in a && 0 !in b && i == |a| <= |b| && Lower(CharAt(b, i)) == 0
    requires forall k :: 0 <= k < i ==> Lower(a[k]) == Lower(b[k])
    ensures SameUpToCase(a, b)
  {
    assert |b| == i;
    FoldExactlyWhen(a, b);
  }

  /** fat16_find_item_in_directory, as the index of the item that the result is made from, or -1 for null. */
  method FindItem(items: seq<Entry>, name: Bytes) returns (found: int)
    requires 0 !in name && forall e :: e in items ==> e.Valid()
    ensures -1 <= found < |items|
    ensures found == -1 ==> forall i :: 0 <= i < |items| ==> !Matches(items[i], name)
    ensures found >= 0 ==> Matches(items[found], name) && forall i :: found < i < |items| ==> !Matches(items[i], name)
  {
    hide FullName, SameUpToCase;
    found := -1;
    var i := 0;
    while i < |items|
      invariant i <= |items| && -1 <= found < i
      invariant found == -1 ==> forall k :: 0 <= k < i ==> !Matches(items[k], name)
      invariant found >= 0 ==> Matches(items[found], name) && forall k :: found < k < i ==> !Matches(items[k], name)
    {
      var filename := new byte[MAX_PATH];
      var n := RenderName(items[i], filename);
      NoNul(items[i]);
      var res := Istrncmp(filename[..n], name, MAX_PATH);
      if res == 0 {
        found := i;
      }
      i := i + 1;
    }
  }

  /** fat16_to_proper_string: copies `input` up to its first NUL or space into `out` from `at` on. */
  method ToProperString(out: array<byte>, at: nat, input: Bytes) returns (next: nat)
    requires |input| >= 1 && at + |input| < out.Length
    modifies out
    ensures next == at + |Trim(input)|
    ensures out[..next] == old(out[..at]) + Trim(input) && out[next] == 0
    ensures forall k :: next < k < out.Length ==> out[k] == old(out[k])
  {
    hide Trim;
    next := at;
    var i := 0;
    while i < |input| && input[i] != 0 && input[i] != SPACE
      invariant i <= |Trim(input)| && next == at + i
      invariant forall k :: 0 <= k < i ==> out[at + k] == input[k]
      invariant forall k :: 0 <= k < at ==> out[k] == old(out[k])
      invariant forall k :: next <= k < out.Length ==> out[k] == old(out[k])
    {
      out[next] := input[i];
      next := next + 1;
      i := i + 1;
    }
    TrimStopsAt(input, i);
    out[next] := 0;
    assert out[at..next] == input[..i];
  }

  lemma TrimStopsAt(s: Bytes, i: nat)
    requires i <= |Trim(s)| && (i < |s| ==> s[i] == 0 || s[i] == SPACE)
    ensures Trim(s) == s[..i]
  {
    hide Trim;
    if i < |Trim(s)| {
      TrimKeeps(s, i);
    }
  }

  lemma TrimKeeps(s: Bytes, i: nat)
    requires i < |Trim(s)|
    ensures s[i] != 0 && s[i] != SPACE
  {
    hide Trim;
    assert Trim(s)[i] == s[i];
  }

  /** memset to zero */
  method Clear(out: array<byte>)
    modifies out
    ensures forall k :: 0 <= k < out.Length ==> out[k] == 0
  {
    var i := 0;
    while i < out.Length
      invariant i <= out.Length && forall k :: 0 <= k < i ==> out[k] == 0
    {
      out[i] := 0;
      i := i + 1;
    }
  }

  lemma NoNul(e: Entry)
    requires e.Valid()
    ensures 0 !in FullName(e) && |FullName(e)| <= NAME_SIZE + 1 + EXT_SIZE
  {
    hide Trim;
  }

  /** Its second half: the dot and the extension, behind the name that ends at `at`. */
  method AppendExtension(out: array<byte>, at: nat, ext: Bytes) returns (next: nat)
    requires |ext| >= 1 && at + 1 + |ext| < out.Length
    requires forall k :: at <= k < out.Length ==> out[k] == 0
    modifies out
    ensures next == at + 1 + |Trim(ext)| && out[..next] == old(out[..at]) + [DOT] + Trim(ext)
    ensures forall k :: next <= k < out.Length ==> out[k] == 0
  {
    hide Trim;
    out[at] := DOT;
    assert out[..at + 1] == old(out[..at]) + [DOT];
    next := ToProperString(out, at + 1, ext);
  }

  /** fat16_get_full_relative_filename, with the length of the rendered name as result. */
  method RenderName(item: Entry, out: array<byte>) returns (n: nat)
    requires item.Valid() && out.Length == MAX_PATH
    modifies out
    ensures n == |FullName(item)| && out[..n] == FullName(item)
    ensures forall k :: n <= k < out.Length ==> out[k] == 0
  {
    hide Trim;
    Clear(out);
    n := ToProperString(out, 0, item.name);
    assert out[..n] == Trim(item.name);
    if item.ext[0] != 0 && item.ext[0] != SPACE {
      n := AppendExtension(out, n, item.ext);
    }
  }

  lemma SameAsItself(s: Bytes)
    ensures SameUpToCase(s, s)
  {
  }

  lemma SameEntryName(s: Bytes, t: Bytes, name: Bytes)
    requires SameUpToCase(s, name) && SameUpToCase(t, name)
    ensures SameUpToCase(s, t)
  {
    FoldExactlyWhen(s, name);
    FoldExactlyWhen(t, name);
    FoldExactlyWhen(s, t);
  }

  /** In a directory of differently named legal entries a name matches at most one, so lookup finds the one or none. */
  lemma AtMostOneMatch(items: seq<Entry>, name: Bytes, i: nat, j: nat)
    requires i < |items| && j < |items| && LegalEntry(items[i]) && LegalEntry(items[j])
    requires i != j ==> items[i].name != items[j].name || items[i].ext != items[j].ext
    requires Matches(items[i], name) && Matches(items[j], name)
    ensures i == j
  {
    hide LegalField, FullName, SameUpToCase;
    SameEntryName(FullName(items[i]), FullName(items[j]), name);
    NamesAreUnambiguous(items[i], items[j]);
  }

  // ---------- counting the entries of a directory ----------

  /** The first byte of entry `i` of the directory at byte position `start`. */
  function FirstByte(disk: Sectors, start: int, i: nat): byte {
    ByteAt(disk, start + i * ENTRY_SIZE)
  }

  predicate IsLive(disk: Sectors, start: int, i: nat) {
    FirstByte(disk, start, i) != DELETED
  }

  /** How many of the first `n` entries are not deleted. */
  function LiveEntries(disk: Sectors, start: int, n: nat): (c: nat)
    ensures c <= n
  {
    if n == 0 then 0 else LiveEntries(disk, start, n - 1) + if IsLive(disk, start, n - 1) then 1 else 0
  }

  /** Entry `end` is the first whose first byte is zero. */
  ghost predicate EndsAt(disk: Sectors, start: int, end: nat) {
    FirstByte(disk, start, end) == 0 && forall i: nat :: i < end ==> FirstByte(disk, start, i) != 0
  }

  /** fat16_get_total_items_for_directory: counts up to the end marker, leaving out deleted entries. */
  method TotalItems(stream: Stream, startSector: nat, ghost end: nat) returns (total: nat)
    requires EndsAt(stream.disk.sectors, startSector * SECTOR_SIZE, end)
    requires startSector * SECTOR_SIZE + (end + 1) * ENTRY_SIZE < INT_LIMIT
    modifies stream, stream.disk
    ensures total == LiveEntries(stream.disk.sectors, startSector * SECTOR_SIZE, end)
  {
    hide ByteAt, Written;
    ghost var start := startSector * SECTOR_SIZE;
    var res := stream.Seek(startSector * SECTOR_SIZE);
    total := 0;
    ghost var n := 0;
    var item := new byte[ENTRY_SIZE](_ => 0);
    while true
      invariant n <= end && stream.pos == start + n * ENTRY_SIZE
      invariant total == LiveEntries(stream.disk.sectors, start, n)
      modifies stream, stream.disk, item
      decreases end - n
    {
      ghost var before := item[..];
      res := stream.Read(item, 0, ENTRY_SIZE);
      ItemRead(before, stream.disk.sectors, start, n);
      assert item[..][0] == item[0] == FirstByte(stream.disk.sectors, start, n);
      if item[0] == 0x00 {
        break;
      }
      n := n + 1;
      if item[0] == DELETED {
        continue;
      }
      total := total + 1;
    }
  }

  lemma ItemRead(before: Bytes, disk: Sectors, start: nat, n: nat)
    requires |before| == ENTRY_SIZE
    ensures Written(before, 0, Slice(disk, start + n * ENTRY_SIZE, ENTRY_SIZE))[0] == FirstByte(disk, start, n)
  {
    hide ByteAt;
  }

  /** The count is the number of entries exactly when none of them is deleted. */
  lemma {:induction false} CountedAllExactlyWhen(disk: Sectors, start: int, n: nat)
    ensures LiveEntries(disk, start, n) == n <==> forall i: nat :: i < n ==> IsLive(disk, start, i)
  {
    hide IsLive;
    if n > 0 {
      CountedAllExactlyWhen(disk, start, n - 1);
    }
  }
}
