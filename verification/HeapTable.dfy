/**
 The kernel heap's only metadata: one byte per 4096-byte block.
 This file holds the table's meaning; Heap.dfy holds the code that works on it.
 */
module HeapTable {
  import opened Config

  type Entry = bv8
  type Table = seq<Entry>

  // The low nibble is the entry type, the top two bits are flags.
  const FREE: Entry := 0x00
  const TAKEN: Entry := 0x01
  const IS_FIRST: Entry := 0x40
  const HAS_NEXT: Entry := 0x80

  predicate IsFree(e: Entry) {
    e & 0x0f == FREE
  }

  predicate HasNext(e: Entry) {
    e & HAS_NEXT != 0
  }

  predicate IsFirst(e: Entry) {
    e & IS_FIRST != 0
  }

  /** The byte that block `j` of an `n`-block allocation carries. */
  function Code(j: nat, n: nat): (e: Entry)
    requires j < n
    ensures !IsFree(e) && e != FREE
    ensures IsFirst(e) <==> j == 0
    ensures HasNext(e) <==> j + 1 < n
  {
    if j == 0 then
      if n == 1 then 0x41 else 0xC1
    else
      if j + 1 == n then 0x01 else 0x81
  }

  // ---------- what a table means ----------

  /** Live allocations: first block -> number of blocks. */
  type Allocations = map<nat, nat>

  ghost predicate Covers(a: Allocations, s: nat, i: int) {
    s in a && s <= i < s + a[s]
  }

  predicate IsBlock(t: Table, i: int) {
    0 <= i < |t|
  }

  /** Table `t` records exactly the allocations `a`, byte for byte. */
  ghost predicate Records(t: Table, a: Allocations) {
    && (forall s :: s in a ==> 1 <= a[s] && s + a[s] <= |t|)
    && (forall s, i :: s in a && s <= i < s + a[s] && i < |t| ==> t[i] == Code(i - s, a[s]))
    && (forall i {:trigger IsBlock(t, i)} :: IsBlock(t, i) && t[i] != FREE ==> exists s :: Covers(a, s, i))
  }

  /** How far the HAS_NEXT flags lead from block `s`. */
  function RunLength(t: Table, s: nat): nat
    requires s < |t|
    decreases |t| - s
  {
    if HasNext(t[s]) && s + 1 < |t| then 1 + RunLength(t, s + 1) else 1
  }

  /** The allocations read back from the bytes alone. */
  function Decode(t: Table): Allocations {
    map s: nat | s < |t| && IsFirst(t[s]) :: RunLength(t, s)
  }

  ghost predicate WellFormed(t: Table) {
    Records(t, Decode(t))
  }

  lemma {:induction false} RunLengthIs(t: Table, s: nat, j: nat, n: nat)
    requires j < n && s + n <= |t|
    requires forall i :: s + j <= i < s + n ==> t[i] == Code(i - s, n)
    ensures RunLength(t, s + j) == n - j
    decreases n - j
  {
    assert t[s + j] == Code(j, n);
    if j + 1 < n {
      RunLengthIs(t, s, j + 1, n);
    }
  }

  lemma FirstByteStartsAllocation(t: Table, a: Allocations, s: nat)
    requires Records(t, a) && s < |t| && IsFirst(t[s])
    ensures s in a
  {
    assert IsBlock(t, s);
    var r :| Covers(a, r, s);
    assert t[s] == Code(s - r, a[r]);
  }

  lemma AllocationStartsWithFirstByte(t: Table, a: Allocations, s: nat)
    requires Records(t, a) && s in a
    ensures s < |t| && IsFirst(t[s]) && RunLength(t, s) == a[s]
  {
    assert t[s] == Code(0, a[s]);
    RunLengthIs(t, s, 0, a[s]);
  }

  lemma DecodeFromFirstBytes(t: Table, a: Allocations)
    requires forall s: nat :: s in a <==> s < |t| && IsFirst(t[s])
    requires forall s :: s in a ==> a[s] == RunLength(t, s)
    ensures Decode(t) == a
  {
    assert Decode(t).Keys == a.Keys;
  }

  /** A table decodes in at most one way: the flags determine the partition. */
  lemma DecodeIsUnique(t: Table, a: Allocations)
    requires Records(t, a)
    ensures Decode(t) == a
    ensures WellFormed(t)
  {
    forall s: nat | s < |t| && IsFirst(t[s])
      ensures s in a
    {
      FirstByteStartsAllocation(t, a, s);
    }
    forall s | s in a
      ensures s < |t| && IsFirst(t[s]) && RunLength(t, s) == a[s]
    {
      AllocationStartsWithFirstByte(t, a, s);
    }
    DecodeFromFirstBytes(t, a);
  }

  /** Conversely the partition determines every byte. */
  lemma SameAllocationsSameBytes(t: Table, u: Table, a: Allocations)
    requires Records(t, a) && Records(u, a) && |t| == |u|
    ensures t == u
  {
    forall i | 0 <= i < |t|
      ensures t[i] == u[i]
    {
      assert IsBlock(t, i) && IsBlock(u, i);
      if s :| Covers(a, s, i) {
        assert t[i] == Code(i - s, a[s]) == u[i];
      }
    }
  }

  /** Live allocations never overlap. */
  lemma AllocationsAreDisjoint(t: Table, a: Allocations, s: nat, r: nat)
    requires Records(t, a) && s in a && r in a && s != r
    ensures s + a[s] <= r || r + a[r] <= s
  {
    AllocationStartsWithFirstByte(t, a, s);
    AllocationStartsWithFirstByte(t, a, r);
  }

  /** A block is free exactly when no allocation covers it. */
  lemma FreeMeansUncovered(t: Table, a: Allocations, i: nat)
    requires Records(t, a) && i < |t|
    ensures IsFree(t[i]) <==> t[i] == FREE
    ensures IsFree(t[i]) <==> !exists s :: Covers(a, s, i)
  {
    assert IsBlock(t, i);
    if s :| Covers(a, s, i) {
      assert t[i] == Code(i - s, a[s]);
    }
  }

  // ---------- marking ----------

  function MarkTaken(t: Table, s: nat, n: nat): (u: Table)
    requires s + n <= |t|
    ensures |u| == |t|
    ensures forall i :: s <= i < s + n ==> u[i] == Code(i - s, n)
    ensures forall i :: 0 <= i < |t| && !(s <= i < s + n) ==> u[i] == t[i]
  {
    seq(|t|, i requires 0 <= i < |t| => if s <= i < s + n then Code(i - s, n) else t[i])
  }

  /** What the freeing loop does from block `i` on: clear until HAS_NEXT is missing. */
  function FreeFrom(t: Table, i: nat): (u: Table)
    ensures |u| == |t|
    decreases |t| - i
  {
    if i >= |t| then t
    else if HasNext(t[i]) then FreeFrom(t[i := FREE], i + 1)
    else t[i := FREE]
  }

  function Cleared(t: Table, s: nat, n: nat): (u: Table)
    requires s + n <= |t|
    ensures |u| == |t|
    ensures forall i :: s <= i < s + n ==> u[i] == FREE
    ensures forall i :: 0 <= i < |t| && !(s <= i < s + n) ==> u[i] == t[i]
  {
    seq(|t|, i requires 0 <= i < |t| => if s <= i < s + n then FREE else t[i])
  }

  ghost predicate AllFree(t: Table, s: int, n: int) {
    0 <= s <= s + n <= |t| && forall i :: s <= i < s + n ==> IsFree(t[i])
  }

  lemma MarkTakenRecords(t: Table, a: Allocations, s: nat, n: nat)
    requires Records(t, a) && n >= 1 && AllFree(t, s, n)
    ensures s !in a
    ensures Records(MarkTaken(t, s, n), a[s := n])
  {
    var u, b := MarkTaken(t, s, n), a[s := n];
    FreeMeansUncovered(t, a, s);
    assert s in a ==> Covers(a, s, s);
    forall r, i | r in b && r <= i < r + b[r] && i < |u|
      ensures u[i] == Code(i - r, b[r])
    {
      if r != s {
        assert Covers(a, r, i);
        FreeMeansUncovered(t, a, i);
      }
    }
    forall i | IsBlock(u, i) && u[i] != FREE
      ensures exists r :: Covers(b, r, i)
    {
      assert IsBlock(t, i);
      if s <= i < s + n {
        assert Covers(b, s, i);
      } else {
        var r :| Covers(a, r, i);
        assert Covers(b, r, i);
      }
    }
  }

  lemma {:induction false} FreeFromRun(t: Table, s: nat, j: nat, n: nat)
    requires j < n && s + n <= |t|
    requires forall i :: s + j <= i < s + n ==> t[i] == Code(i - s, n)
    ensures FreeFrom(t, s + j) == Cleared(t, s + j, n - j)
    decreases n - j
  {
    assert t[s + j] == Code(j, n);
    if j + 1 < n {
      FreeFromRun(t[s + j := FREE], s, j + 1, n);
    }
  }

  /** Freeing a live allocation's first block clears exactly its blocks and drops it from the partition. */
  lemma FreeDropsAllocation(t: Table, a: Allocations, s: nat)
    requires Records(t, a) && s in a
    ensures FreeFrom(t, s) == Cleared(t, s, a[s])
    ensures Records(FreeFrom(t, s), a - {s})
  {
    FreeFromRun(t, s, 0, a[s]);
    var u, b := Cleared(t, s, a[s]), a - {s};
    forall r, i | r in b && r <= i < r + b[r] && i < |u|
      ensures u[i] == Code(i - r, b[r])
    {
      AllocationsAreDisjoint(t, a, s, r);
    }
    forall i | IsBlock(u, i) && u[i] != FREE
      ensures exists r :: Covers(b, r, i)
    {
      assert IsBlock(t, i);
      var r :| Covers(a, r, i);
      assert Covers(b, r, i);
    }
  }

  /** Allocate then free gives back the same bytes. */
  lemma MallocThenFree(t: Table, a: Allocations, s: nat, n: nat)
    requires Records(t, a) && n >= 1 && AllFree(t, s, n)
    ensures FreeFrom(MarkTaken(t, s, n), s) == t
  {
    MarkTakenRecords(t, a, s, n);
    FreeDropsAllocation(MarkTaken(t, s, n), a[s := n], s);
    assert a[s := n] - {s} == a;
    SameAllocationsSameBytes(FreeFrom(MarkTaken(t, s, n), s), t, a);
  }

  // ---------- the first-fit scan ----------

  /** The scan at block `i`, with the current free run starting at `bs` (or -1). */
  function ScanFrom(t: Table, n: nat, i: nat, bs: int): int
    requires i <= |t| && -1 <= bs < i
    decreases |t| - i
  {
    if i == |t| then (if bs == -1 then -ENOMEM else bs)
    else if !IsFree(t[i]) then ScanFrom(t, n, i + 1, -1)
    else
      var b := if bs == -1 then i else bs;
      if i + 1 - b == n then b else ScanFrom(t, n, i + 1, b)
  }

  function FirstFit(t: Table, n: nat): int {
    ScanFrom(t, n, 0, -1)
  }

  ghost predicate Fits(t: Table, n: nat) {
    n >= 1 && exists s :: AllFree(t, s, n)
  }

  /** Block `r` starts the run of free blocks that reaches the end of the table. */
  ghost predicate TrailingRun(t: Table, r: int) {
    && 0 <= r < |t| && AllFree(t, r, |t| - r)
    && (r > 0 ==> !IsFree(t[r - 1]))
  }

  ghost predicate LastIsFree(t: Table) {
    |t| > 0 && IsFree(t[|t| - 1])
  }

  ghost predicate ScanResult(t: Table, n: nat, r: int) {
    if Fits(t, n) then AllFree(t, r, n) && forall s :: 0 <= s < r ==> !AllFree(t, s, n)
    else if LastIsFree(t) then TrailingRun(t, r)
    else r == -ENOMEM
  }

  lemma {:induction false} ScanFromIsExact(t: Table, n: nat, i: nat, bs: int)
    requires i <= |t| && -1 <= bs < i
    requires if bs == -1 then i == 0 || !IsFree(t[i - 1]) else AllFree(t, bs, i - bs) && (bs > 0 ==> !IsFree(t[bs - 1]))
    requires n >= 1 ==> (bs != -1 ==> i - bs < n) && forall s :: 0 <= s && s + n <= i ==> !AllFree(t, s, n)
    ensures ScanResult(t, n, ScanFrom(t, n, i, bs))
    decreases |t| - i
  {
    if i == |t| {
    } else if !IsFree(t[i]) {
      assert 1 <= n <= i + 1 ==> !AllFree(t, i + 1 - n, n);
      ScanFromIsExact(t, n, i + 1, -1);
    } else {
      var b := if bs == -1 then i else bs;
      if i + 1 - b == n {
        assert AllFree(t, b, n);
      } else {
        assert 1 <= n <= i + 1 ==> i + 1 - n < b && !AllFree(t, i + 1 - n, n);
        ScanFromIsExact(t, n, i + 1, b);
      }
    }
  }

  /**
   The scan returns the smallest block that starts `n` free ones; when there is none, the
   start of the trailing free run however short it is, and -ENOMEM only if there is no such run.
   */
  lemma FirstFitIsExact(t: Table, n: nat)
    ensures ScanResult(t, n, FirstFit(t, n))
  {
    ScanFromIsExact(t, n, 0, -1);
  }

  /** The scan's answer makes the marking loop run off the end of the table. */
  predicate Overruns(t: Table, n: nat) {
    FirstFit(t, n) >= 0 && FirstFit(t, n) + n > |t|
  }

  /** Exactly when that happens: no run is long enough, yet the last block is free. */
  lemma OverrunsExactlyWhen(t: Table, n: nat)
    requires n >= 1
    ensures Overruns(t, n) <==> !Fits(t, n) && LastIsFree(t)
  {
    FirstFitIsExact(t, n);
    var r := FirstFit(t, n);
    if LastIsFree(t) && !Fits(t, n) {
      assert r + n <= |t| ==> AllFree(t, r, n);
    }
  }

  /** A scan that does not overrun is trustworthy. */
  lemma SafeScan(t: Table, n: nat)
    requires n >= 1 && !Overruns(t, n)
    ensures if FirstFit(t, n) < 0 then FirstFit(t, n) == -ENOMEM && !Fits(t, n) else AllFree(t, FirstFit(t, n), n)
  {
    FirstFitIsExact(t, n);
    OverrunsExactlyWhen(t, n);
  }

  /** A concrete table on which asking for two blocks would write past its end. */
  lemma OverrunExample()
    ensures FirstFit([0x41, 0x00], 2) == 1
    ensures Overruns([0x41, 0x00], 2)
  {
    var t: Table := [0x41, 0x00];
    assert ScanFrom(t, 2, 1, -1) == ScanFrom(t, 2, 2, 1) == 1;
  }

  /** One-block requests never overrun and fail only on a full table. */
  lemma SingleBlockIsSafe(t: Table)
    ensures FirstFit(t, 1) >= 0 ==> AllFree(t, FirstFit(t, 1), 1)
    ensures FirstFit(t, 1) < 0 ==> FirstFit(t, 1) == -ENOMEM && forall i :: 0 <= i < |t| ==> !IsFree(t[i])
  {
    FirstFitIsExact(t, 1);
    if i: int :| 0 <= i < |t| && IsFree(t[i]) {
      assert AllFree(t, i, 1);
    }
  }

  // ---------- freeing many ----------

  function FreeAll(t: Table, order: seq<nat>): (u: Table)
    ensures |u| == |t|
    decreases |order|
  {
    if order == [] then t else FreeAll(FreeFrom(t, order[0]), order[1..])
  }

  ghost predicate NoRepeats(order: seq<nat>) {
    forall i, j :: 0 <= i < j < |order| ==> order[i] != order[j]
  }

  function Elements(order: seq<nat>): set<nat> {
    set b | b in order
  }

  lemma {:induction false} FreeAllRecords(t: Table, a: Allocations, order: seq<nat>)
    requires Records(t, a) && NoRepeats(order)
    requires forall b :: b in order ==> b in a
    ensures Records(FreeAll(t, order), a - Elements(order))
    decreases |order|
  {
    if order == [] {
      assert a - Elements(order) == a;
    } else {
      FreeDropsAllocation(t, a, order[0]);
      assert order[0] !in order[1..];
      FreeAllRecords(FreeFrom(t, order[0]), a - {order[0]}, order[1..]);
      assert a - {order[0]} - Elements(order[1..]) == a - Elements(order);
    }
  }

  /** Freeing a set of live allocations gives one table, whatever the order. */
  lemma FreeOrderIrrelevant(t: Table, p: seq<nat>, q: seq<nat>)
    requires WellFormed(t) && NoRepeats(p) && NoRepeats(q) && Elements(p) == Elements(q)
    requires forall b :: b in p ==> b in Decode(t)
    ensures FreeAll(t, p) == FreeAll(t, q)
  {
    forall b | b in q
      ensures b in Decode(t)
    {
      assert b in Elements(q);
    }
    FreeAllRecords(t, Decode(t), p);
    FreeAllRecords(t, Decode(t), q);
    SameAllocationsSameBytes(FreeAll(t, p), FreeAll(t, q), Decode(t) - Elements(p));
  }

  // ---------- conservation ----------

  function Bit(e: Entry): nat {
    if IsFree(e) then 0 else 1
  }

  function TakenCount(t: Table): (c: nat)
    ensures c <= |t|
  {
    if t == [] then 0 else Bit(t[0]) + TakenCount(t[1..])
  }

  lemma {:induction false} CountUpdate(t: Table, i: nat, e: Entry)
    requires i < |t|
    ensures TakenCount(t[i := e]) == TakenCount(t) - Bit(t[i]) + Bit(e)
  {
    if i == 0 {
      assert t[i := e][1..] == t[1..];
    } else {
      assert t[i := e][1..] == t[1..][i - 1 := e];
      CountUpdate(t[1..], i - 1, e);
    }
  }

  /** Two tables that differ only on a free stretch that the second fills. */
  lemma {:induction false} CountFilled(t: Table, u: Table, s: nat, n: nat)
    requires |t| == |u| && AllFree(t, s, n)
    requires forall i :: s <= i < s + n ==> !IsFree(u[i])
    requires forall i :: 0 <= i < |t| && !(s <= i < s + n) ==> u[i] == t[i]
    ensures TakenCount(u) == TakenCount(t) + n
    decreases n
  {
    if n == 0 {
      assert t == u;
    } else {
      var v := t[s := u[s]];
      CountUpdate(t, s, u[s]);
      CountFilled(v, u, s + 1, n - 1);
    }
  }

  ghost function Total(a: Allocations): nat {
    if a == map[] then 0 else
      var s :| s in a;
      a[s] + Total(a - {s})
  }

  lemma {:induction false} NoAllocations(t: Table)
    requires forall i :: 0 <= i < |t| ==> t[i] == FREE
    ensures TakenCount(t) == 0
  {
    if t != [] {
      NoAllocations(t[1..]);
    }
  }

  /** Conservation: the taken blocks are exactly the blocks of the live allocations. */
  lemma {:induction false} TakenIsTotal(t: Table, a: Allocations)
    requires Records(t, a)
    ensures TakenCount(t) == Total(a)
    decreases a
  {
    if a == map[] {
      forall i | 0 <= i < |t|
        ensures t[i] == FREE
      {
        FreeMeansUncovered(t, a, i);
      }
      NoAllocations(t);
    } else {
      var s :| s in a && Total(a) == a[s] + Total(a - {s});
      FreeDropsAllocation(t, a, s);
      var u := FreeFrom(t, s);
      CountFilled(u, t, s, a[s]);
      assert (a - {s}).Keys < a.Keys;
      TakenIsTotal(u, a - {s});
    }
  }
}
