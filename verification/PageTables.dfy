/**
 Two-level page tables as they lie in physical memory, and what mapping does to the 2^20
 pages of an address space (src/memory/paging/paging.c, seen on values).
 */
module PageTables {
  import opened Config
  import opened Words

  const ENTRIES: nat := 1024
  const PAGES: nat := 0x10_0000

  // Page table entry flags.
  const PRESENT := 1
  const WRITEABLE := 2
  const ACCESS_FROM_ALL := 4

  type Flags = f: nat | f < 4096

  /** Page-sized frames that hold tables: frame address -> its 1024 entries. */
  type Frames = map<word, seq<word>>

  /** The table that slot `i` of directory `d` points to, flags masked off. */
  function TableAt(m: Frames, d: word, i: int): word
    requires d in m && 0 <= i < |m[d]|
  {
    Mask(m[d][i])
  }

  /** `d` is a directory of 1024 distinct tables of 1024 entries. */
  ghost predicate Paged(m: Frames, d: word) {
    && d in m && |m[d]| == ENTRIES
    && (forall i :: 0 <= i < ENTRIES ==> TableAt(m, d, i) in m && TableAt(m, d, i) != d)
    && (forall i :: 0 <= i < ENTRIES ==> |m[TableAt(m, d, i)]| == ENTRIES)
    && (forall i, j :: 0 <= i < j < ENTRIES ==> TableAt(m, d, i) != TableAt(m, d, j))
  }

  /** The entry of page number `p`. */
  function EntryOf(m: Frames, d: word, p: int): word
    requires Paged(m, d) && 0 <= p < PAGES
  {
    m[TableAt(m, d, p / ENTRIES)][p % ENTRIES]
  }

  /** paging_get_indexes: directory and table index of an aligned address. */
  function Indexes(virt: word): (int, int) {
    (virt / (ENTRIES * PAGE_SIZE), virt % (ENTRIES * PAGE_SIZE) / PAGE_SIZE)
  }

  /** The split into indexes is a bijection between aligned addresses and index pairs. */
  lemma IndexesAreABijection(virt: word, i: int, j: int)
    requires Aligned(virt)
    ensures 0 <= Indexes(virt).0 < ENTRIES && 0 <= Indexes(virt).1 < ENTRIES
    ensures Indexes(virt) == (virt / PAGE_SIZE / ENTRIES, virt / PAGE_SIZE % ENTRIES)
    ensures 0 <= i < ENTRIES && 0 <= j < ENTRIES ==>
              (Indexes(virt) == (i, j) <==> virt == (i * ENTRIES + j) * PAGE_SIZE)
  {
  }

  /** Frames other than `d`'s own tables are left alone, and `d` stays a directory of the same tables. */
  ghost predicate SameShape(m: Frames, n: Frames, d: word) {
    && Paged(m, d) && Paged(n, d) && n[d] == m[d] && n.Keys == m.Keys
    && (forall f :: f in m && (forall i :: 0 <= i < ENTRIES ==> f != TableAt(m, d, i)) ==> n[f] == m[f])
  }

  lemma SameShapeChains(m: Frames, n: Frames, o: Frames, d: word)
    requires SameShape(m, n, d) && SameShape(n, o, d)
    ensures SameShape(m, o, d)
  {
    assert forall i :: 0 <= i < ENTRIES ==> TableAt(n, d, i) == TableAt(m, d, i);
  }

  lemma WriteKeepsShape(m: Frames, d: word, i: int, entries: seq<word>)
    requires Paged(m, d) && 0 <= i < ENTRIES && |entries| == ENTRIES
    ensures SameShape(m, m[TableAt(m, d, i) := entries], d)
  {
    var n := m[TableAt(m, d, i) := entries];
    assert n[d] == m[d];
    assert forall k :: 0 <= k < ENTRIES ==> TableAt(n, d, k) == TableAt(m, d, k);
  }

  /** paging_set */
  function Set(m: Frames, d: word, virt: word, val: word): (r: (Frames, int))
    requires Paged(m, d)
    ensures Paged(r.0, d) && r.0[d] == m[d] && (r.1 == 0 || r.1 == -EINVARG)
  {
    if !Aligned(virt) then (m, -EINVARG)
    else
      var (i, j) := Indexes(virt);
      var table := TableAt(m, d, i);
      var entries: seq<word> := m[table][j := val];
      WriteKeepsShape(m, d, i, entries);
      (m[table := entries], 0)
  }

  /** paging_map */
  function Map(m: Frames, d: word, virt: word, phys: word, flags: Flags): (r: (Frames, int))
    requires Paged(m, d)
    ensures Paged(r.0, d) && r.0[d] == m[d] && (r.1 == 0 || r.1 == -EINVARG)
  {
    if !Aligned(virt) || !Aligned(phys) then (m, -EINVARG)
    else Set(m, d, virt, phys + flags)
  }

  /** An address space as the plain sequence of its 2^20 entries. */
  ghost function SpaceOf(m: Frames, d: word): (v: seq<word>)
    requires Paged(m, d)
    ensures |v| == PAGES
  {
    seq(PAGES, p requires 0 <= p < PAGES => EntryOf(m, d, p))
  }

  lemma SetIsPointwise(m: Frames, d: word, virt: word, val: word, q: int)
    requires Paged(m, d) && Aligned(virt) && 0 <= q < PAGES
    ensures Paged(Set(m, d, virt, val).0, d)
    ensures EntryOf(Set(m, d, virt, val).0, d, q) == if q == virt / PAGE_SIZE then val else EntryOf(m, d, q)
  {
    IndexesAreABijection(virt, q / ENTRIES, q % ENTRIES);
  }

  // ---------- mapping a range ----------

  /** paging_map_range; pointers advance with 32-bit wrap-around, and the first failure stops it. */
  function MapRange(m: Frames, d: word, virt: word, phys: word, count: nat, flags: Flags): (r: (Frames, int))
    requires Paged(m, d)
    ensures Paged(r.0, d) && r.0[d] == m[d] && (r.1 == 0 || r.1 == -EINVARG)
    decreases count
  {
    if count == 0 then (m, 0)
    else
      var (n, res) := Map(m, d, virt, phys, flags);
      if res < 0 then (n, res)
      else
        MapRange(n, d, Wrap(virt + PAGE_SIZE), Wrap(phys + PAGE_SIZE), count - 1, flags)
  }

  /** paging_map_to */
  function MapTo(m: Frames, d: word, virt: word, phys: word, physEnd: word, flags: Flags): (r: (Frames, int))
    requires Paged(m, d)
    ensures Paged(r.0, d) && r.0[d] == m[d] && (r.1 == 0 || r.1 == -EINVARG)
  {
    if !Aligned(virt) || !Aligned(phys) || !Aligned(physEnd) || physEnd < phys then (m, -EINVARG)
    else MapRange(m, d, virt, phys, (physEnd - phys) / PAGE_SIZE, flags)
  }

  /** The page after page `p`, going round at the top of the 4 GB space. */
  function NextPage(p: int): int {
    if p + 1 == PAGES then 0 else p + 1
  }

  /** How many pages after page `v` page `q` comes, going round likewise. */
  function Ahead(v: int, q: int): int {
    if q >= v then q - v else q - v + PAGES
  }

  /** What mapping `count` pages does to a space: one entry after the other. */
  ghost function Filled(v: seq<word>, p: int, phys: word, count: nat, flags: Flags): (w: seq<word>)
    requires |v| == PAGES && 0 <= p < PAGES && Aligned(phys)
    ensures |w| == PAGES
    decreases count
  {
    if count == 0 then v
    else Filled(v[p := phys + flags], NextPage(p), Wrap(phys + PAGE_SIZE), count - 1, flags)
  }

  lemma {:induction false} FilledIsPointwise(v: seq<word>, p: int, phys: word, count: nat, flags: Flags, q: int)
    requires |v| == PAGES && 0 <= p < PAGES && Aligned(phys) && 0 <= q < PAGES
    requires count <= PAGES && phys + count * PAGE_SIZE <= WORD_LIMIT
    ensures Filled(v, p, phys, count, flags)[q]
         == if Ahead(p, q) < count then phys + Ahead(p, q) * PAGE_SIZE + flags else v[q]
    decreases count
  {
    if count > 1 {
      FilledIsPointwise(v[p := phys + flags], NextPage(p), phys + PAGE_SIZE, count - 1, flags, q);
    }
  }

  lemma SpaceAfterMap(m: Frames, d: word, virt: word, phys: word, flags: Flags)
    requires Paged(m, d) && Aligned(virt) && Aligned(phys)
    ensures Map(m, d, virt, phys, flags).1 == 0
    ensures SpaceOf(Map(m, d, virt, phys, flags).0, d) == SpaceOf(m, d)[virt / PAGE_SIZE := phys + flags]
  {
    forall q | 0 <= q < PAGES
      ensures EntryOf(Map(m, d, virt, phys, flags).0, d, q)
              == if q == virt / PAGE_SIZE then phys + flags else EntryOf(m, d, q)
    {
      SetIsPointwise(m, d, virt, phys + flags, q);
    }
  }

  lemma NextAddress(virt: word)
    requires Aligned(virt)
    ensures Aligned(Wrap(virt + PAGE_SIZE))
    ensures Wrap(virt + PAGE_SIZE) / PAGE_SIZE == NextPage(virt / PAGE_SIZE)
  {
  }

  lemma {:induction false} SpaceAfterMapRange(m: Frames, d: word, virt: word, phys: word, count: nat, flags: Flags)
    requires Paged(m, d) && Aligned(virt) && Aligned(phys)
    ensures MapRange(m, d, virt, phys, count, flags).1 == 0
    ensures SpaceOf(MapRange(m, d, virt, phys, count, flags).0, d)
         == Filled(SpaceOf(m, d), virt / PAGE_SIZE, phys, count, flags)
    decreases count
  {
    if count > 0 {
      var n := Map(m, d, virt, phys, flags).0;
      SpaceAfterMap(m, d, virt, phys, flags);
      NextAddress(virt);
      NextAddress(phys);
      SpaceAfterMapRange(n, d, Wrap(virt + PAGE_SIZE), Wrap(phys + PAGE_SIZE), count - 1, flags);
    }
  }

  ghost predicate Mappable(virt: word, phys: word, physEnd: word) {
    Aligned(virt) && Aligned(phys) && Aligned(physEnd) && phys <= physEnd
  }

  lemma SpaceAfterMapTo(m: Frames, d: word, virt: word, phys: word, physEnd: word, flags: Flags)
    requires Paged(m, d) && Mappable(virt, phys, physEnd)
    ensures MapTo(m, d, virt, phys, physEnd, flags).1 == 0
    ensures SpaceOf(MapTo(m, d, virt, phys, physEnd, flags).0, d)
         == Filled(SpaceOf(m, d), virt / PAGE_SIZE, phys, (physEnd - phys) / PAGE_SIZE, flags)
  {
    SpaceAfterMapRange(m, d, virt, phys, (physEnd - phys) / PAGE_SIZE, flags);
  }

  /**
   Mapping a range is a pointwise update of the 2^20 entries, also when the virtual range
   wraps round the top of the address space; it fails, changing nothing, exactly on
   misaligned or reversed arguments.
   */
  lemma MapToIsPointwise(m: Frames, d: word, virt: word, phys: word, physEnd: word, flags: Flags, q: int)
    requires Paged(m, d) && 0 <= q < PAGES
    ensures var (n, res) := MapTo(m, d, virt, phys, physEnd, flags);
            if Mappable(virt, phys, physEnd) then
              res == 0 &&
              var k := Ahead(virt / PAGE_SIZE, q);
              SpaceOf(n, d)[q]
              == if phys + k * PAGE_SIZE < physEnd then phys + k * PAGE_SIZE + flags else SpaceOf(m, d)[q]
            else n == m && res == -EINVARG
  {
    if Mappable(virt, phys, physEnd) {
      SpaceAfterMapTo(m, d, virt, phys, physEnd, flags);
      FilledIsPointwise(SpaceOf(m, d), virt / PAGE_SIZE, phys, (physEnd - phys) / PAGE_SIZE, flags, q);
    }
  }

  // ---------- what mapping leaves alone ----------

  ghost function TablesFrom(m: Frames, d: word, i: int): set<word>
    requires d in m && |m[d]| == ENTRIES && 0 <= i <= ENTRIES
  {
    set j | i <= j < ENTRIES :: TableAt(m, d, j)
  }

  /** The frames an address space is made of. */
  ghost function Footprint(m: Frames, d: word): set<word>
    requires Paged(m, d)
  {
    TablesFrom(m, d, 0) + {d}
  }

  ghost predicate Agree(m: Frames, n: Frames, fs: set<word>) {
    forall f :: f in fs ==> f in m && f in n && n[f] == m[f]
  }

  /** Space `e` is untouched when the frames it is made of are. */
  lemma SpaceUnchanged(m: Frames, n: Frames, e: word)
    requires Paged(m, e) && Agree(m, n, Footprint(m, e))
    ensures Paged(n, e) && n[e] == m[e]
    ensures Footprint(n, e) == Footprint(m, e)
    ensures SpaceOf(n, e) == SpaceOf(m, e)
  {
    assert e in Footprint(m, e);
    assert forall i :: 0 <= i < ENTRIES ==> TableAt(m, e, i) in Footprint(m, e) && TableAt(n, e, i) == TableAt(m, e, i);
  }

  lemma MapKeepsShape(m: Frames, d: word, virt: word, phys: word, flags: Flags)
    requires Paged(m, d)
    ensures SameShape(m, Map(m, d, virt, phys, flags).0, d)
  {
    if Aligned(virt) && Aligned(phys) {
      var (i, j) := Indexes(virt);
      WriteKeepsShape(m, d, i, m[TableAt(m, d, i)][j := phys + flags]);
    }
  }

  lemma {:induction false} MapRangeKeepsShape(m: Frames, d: word, virt: word, phys: word, count: nat, flags: Flags)
    requires Paged(m, d)
    ensures SameShape(m, MapRange(m, d, virt, phys, count, flags).0, d)
    decreases count
  {
    if count > 0 {
      MapKeepsShape(m, d, virt, phys, flags);
      var (n, res) := Map(m, d, virt, phys, flags);
      if res >= 0 {
        MapRangeKeepsShape(n, d, Wrap(virt + PAGE_SIZE), Wrap(phys + PAGE_SIZE), count - 1, flags);
        SameShapeChains(m, n, MapRange(m, d, virt, phys, count, flags).0, d);
      }
    }
  }

  /** Mapping keeps the directory and its tables' places, and writes no frame outside its own tables. */
  lemma MapToKeepsShape(m: Frames, d: word, virt: word, phys: word, physEnd: word, flags: Flags)
    requires Paged(m, d)
    ensures var n := MapTo(m, d, virt, phys, physEnd, flags).0;
            && n[d] == m[d] && n.Keys == m.Keys && Footprint(n, d) == Footprint(m, d)
            && (forall f :: f in m && f !in Footprint(m, d) ==> n[f] == m[f])
  {
    if Mappable(virt, phys, physEnd) {
      MapRangeKeepsShape(m, d, virt, phys, (physEnd - phys) / PAGE_SIZE, flags);
      ShapeByFootprint(m, MapTo(m, d, virt, phys, physEnd, flags).0, d);
    }
  }

  lemma ShapeByFootprint(m: Frames, n: Frames, d: word)
    requires SameShape(m, n, d)
    ensures Footprint(n, d) == Footprint(m, d)
    ensures forall f :: f in m && f !in Footprint(m, d) ==> n[f] == m[f]
  {
    assert forall i :: 0 <= i < ENTRIES ==> TableAt(n, d, i) == TableAt(m, d, i);
  }

  // ---------- translation ----------

  /** paging_get; on a misaligned address the indexes stay 0. */
  function Get(m: Frames, d: word, virt: word): word
    requires Paged(m, d)
  {
    if Aligned(virt) then
      var (i, j) := Indexes(virt);
      m[TableAt(m, d, i)][j]
    else m[TableAt(m, d, 0)][0]
  }

  /** paging_get_phyiscal_address */
  function Physical(m: Frames, d: word, virt: word): word
    requires Paged(m, d)
  {
    var lower := Mask(virt);
    Wrap(Mask(Get(m, d, lower)) + (virt - lower))
  }

  /** Translation goes through the entry of the page the address lies in. */
  lemma PhysicalBySpace(m: Frames, d: word, v: word)
    requires Paged(m, d)
    ensures Physical(m, d, v) == Mask(SpaceOf(m, d)[v / PAGE_SIZE]) + v % PAGE_SIZE
  {
    var lower := Mask(v);
    IndexesAreABijection(lower, 0, 0);
    assert lower / PAGE_SIZE == v / PAGE_SIZE;
    assert Get(m, d, lower) == EntryOf(m, d, v / PAGE_SIZE);
  }

  lemma AheadInBytes(virt: word, v: word)
    requires Aligned(virt)
    ensures Wrap(v - virt) == Ahead(virt / PAGE_SIZE, v / PAGE_SIZE) * PAGE_SIZE + v % PAGE_SIZE
  {
  }

  lemma RangeInBytes(phys: word, physEnd: word, k: nat, offset: nat)
    requires Aligned(phys) && Aligned(physEnd) && offset < PAGE_SIZE
    ensures phys + k * PAGE_SIZE < physEnd <==> k * PAGE_SIZE + offset < physEnd - phys
  {
  }

  lemma SpaceTranslates(m: Frames, n: Frames, d: word, v: word, k: nat, flags: Flags)
    requires Paged(m, d) && Paged(n, d)
    ensures SpaceOf(n, d)[v / PAGE_SIZE] == SpaceOf(m, d)[v / PAGE_SIZE] ==> Physical(n, d, v) == Physical(m, d, v)
    ensures Aligned(k) && SpaceOf(n, d)[v / PAGE_SIZE] == k + flags ==> Physical(n, d, v) == k + v % PAGE_SIZE
  {
    PhysicalBySpace(m, d, v);
    PhysicalBySpace(n, d, v);
  }

  lemma TranslatesByEntry(m: Frames, n: Frames, d: word, virt: word, phys: word, physEnd: word, flags: Flags, v: word)
    requires Paged(m, d) && Paged(n, d) && Mappable(virt, phys, physEnd)
    requires var k := Ahead(virt / PAGE_SIZE, v / PAGE_SIZE);
             SpaceOf(n, d)[v / PAGE_SIZE]
               == if phys + k * PAGE_SIZE < physEnd then phys + k * PAGE_SIZE + flags else SpaceOf(m, d)[v / PAGE_SIZE]
    ensures var k := Wrap(v - virt);
            Physical(n, d, v) == if k < physEnd - phys then phys + k else Physical(m, d, v)
  {
    hide Physical, SpaceOf, Paged, Ahead;
    var k := Ahead(virt / PAGE_SIZE, v / PAGE_SIZE);
    SpaceTranslates(m, n, d, v, phys + k * PAGE_SIZE, flags);
    AheadInBytes(virt, v);
    RangeInBytes(phys, physEnd, k, v % PAGE_SIZE);
  }

  /** Every address the mapping covers translates to the matching physical byte, every other one as before. */
  lemma MapToTranslates(m: Frames, d: word, virt: word, phys: word, physEnd: word, flags: Flags, v: word)
    requires Paged(m, d) && Mappable(virt, phys, physEnd)
    ensures var n := MapTo(m, d, virt, phys, physEnd, flags).0;
            var k := Wrap(v - virt);
            Physical(n, d, v) == if k < physEnd - phys then phys + k else Physical(m, d, v)
  {
    MapToIsPointwise(m, d, virt, phys, physEnd, flags, v / PAGE_SIZE);
    TranslatesByEntry(m, MapTo(m, d, virt, phys, physEnd, flags).0, d, virt, phys, physEnd, flags, v);
  }

  /** paging_align_address: rounds up to a page, wrapping to 0 in the last one. */
  function AlignAddress(a: word): word {
    if Aligned(a) then a else Wrap(a + PAGE_SIZE - a % PAGE_SIZE)
  }
}
