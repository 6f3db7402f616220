/** A process's keyboard buffer (src/keyboard/keyboard.c): a ring whose NUL cells are the free ones. */
module Keyboard {
  import opened Words

  const SIZE := 1024
  const NUL: char := '\0'

  /** The buffer, and the two counters, which wrap at 32 bits and not at the buffer's size. */
  datatype Ring = Ring(cells: seq<char>, head: word, tail: word)

  predicate Sized(r: Ring) {
    |r.cells| == SIZE
  }

  const EMPTY := Ring(seq(SIZE, _ => NUL), 0, 0)

  function Push(r: Ring, c: char): (s: Ring)
    requires Sized(r)
    ensures Sized(s)
  {
    if c == NUL then r else Ring(r.cells[r.tail % SIZE := c], r.head, Wrap(r.tail + 1))
  }

  function Pop(r: Ring): (s: (Ring, char))
    requires Sized(r)
    ensures Sized(s.0)
  {
    var c := r.cells[r.head % SIZE];
    if c == NUL then (r, NUL) else (Ring(r.cells[r.head % SIZE := NUL], Wrap(r.head + 1), r.tail), c)
  }

  // ---------- the queue in it ----------

  /** The cell `k` places behind the head. */
  function Cell(head: word, k: nat): (i: nat)
    ensures i < SIZE
  {
    (head + k) % SIZE
  }

  /** The ring holds `q`, from head to tail, and nothing else. */
  ghost predicate Holds(r: Ring, q: string) {
    && Sized(r) && |q| <= SIZE && NUL !in q && r.tail == Wrap(r.head + |q|)
    && forall k {:trigger Cell(r.head, k)} :: 0 <= k < SIZE ==>
         r.cells[Cell(r.head, k)] == if k < |q| then q[k] else NUL
  }

  lemma CellsDiffer(head: word, j: nat, k: nat)
    requires j < SIZE && k < SIZE
    ensures Cell(head, j) == Cell(head, k) <==> j == k
  {
  }

  /** The number of places from the head to cell `i`. */
  lemma CellReached(head: word, i: nat) returns (k: nat)
    requires i < SIZE
    ensures k < SIZE && Cell(head, k) == i
  {
    k := (i + SIZE - head % SIZE) % SIZE;
  }

  lemma WrapKeepsCell(x: nat)
    ensures Wrap(x) % SIZE == x % SIZE
  {
  }

  lemma CellFacts(head: word, k: nat)
    ensures Cell(head, 0) == head % SIZE && Cell(head, k) == Wrap(head + k) % SIZE
    ensures Cell(Wrap(head + 1), k) == Cell(head, k + 1)
    ensures Cell(head, SIZE) == Cell(head, 0)
  {
    hide Wrap;
    WrapKeepsCell(head + k);
    WrapKeepsCell(head + 1);
  }

  lemma Behind(head: word, k: nat)
    requires k > 0
    ensures Wrap(Wrap(head + 1) + (k - 1)) == Wrap(head + k)
  {
  }

  lemma Advance(head: word, k: nat)
    ensures Wrap(Wrap(head + k) + 1) == Wrap(head + (k + 1))
  {
  }

  /** The cells that are not NUL are exactly those from head to tail. */
  lemma UsedCells(r: Ring, q: string, i: nat)
    requires Holds(r, q) && i < SIZE
    ensures r.cells[i] != NUL <==> exists k :: 0 <= k < |q| && Cell(r.head, k) == i
  {
    var m := CellReached(r.head, i);
    forall k | 0 <= k < |q| && Cell(r.head, k) == i
      ensures k == m
    {
      CellsDiffer(r.head, k, m);
    }
  }

  lemma {:induction false} PushAdds(r: Ring, q: string, c: char)
    requires Holds(r, q) && c != NUL && |q| < SIZE
    ensures Holds(Push(r, c), q + [c])
  {
    CellFacts(r.head, |q|);
    Advance(r.head, |q|);
    hide Cell, Wrap;
    var s := Push(r, c);
    forall k | 0 <= k < SIZE
      ensures s.cells[Cell(r.head, k)] == if k < |q| then q[k] else if k == |q| then c else NUL
    {
      CellsDiffer(r.head, k, |q|);
    }
  }

  lemma {:induction false} PopTakes(r: Ring, q: string)
    requires Holds(r, q)
    ensures if q == [] then Pop(r) == (r, NUL) else Pop(r).1 == q[0] && Holds(Pop(r).0, q[1..])
  {
    CellFacts(r.head, 0);
    hide Cell, Wrap;
    assert r.cells[Cell(r.head, 0)] == if 0 < |q| then q[0] else NUL;
    if q != [] {
      Behind(r.head, |q|);
      var s := Pop(r).0;
      forall k | 0 <= k < SIZE
        ensures s.cells[Cell(s.head, k)] == if k < |q[1..]| then q[1..][k] else NUL
      {
        CellFacts(r.head, k);
        CellsDiffer(r.head, 0, if k + 1 < SIZE then k + 1 else 0);
      }
    }
  }

  /** A character pushed into a full ring replaces the oldest one, and comes out before all others. */
  lemma OverflowReplaces(r: Ring, q: string, c: char)
    requires Holds(r, q) && c != NUL && |q| == SIZE
    ensures Pop(Push(r, c)).1 == c && Holds(Push(r, c).(tail := r.tail), [c] + q[1..])
  {
    CellFacts(r.head, SIZE);
    var s := Push(r, c);
    forall k | 0 <= k < SIZE
      ensures s.cells[Cell(r.head, k)] == if k == 0 then c else q[k]
    {
      CellsDiffer(r.head, k, 0);
    }
  }

  // ---------- runs ----------

  datatype Event = Key(c: char) | GetKey

  /** The ring after the events, and the characters that came out of it. */
  function Run(r: Ring, events: seq<Event>): (s: (Ring, string))
    requires Sized(r)
    ensures Sized(s.0)
    decreases |events|
  {
    if events == [] then (r, []) else
      match events[0]
      case Key(c) => Run(Push(r, c), events[1..])
      case GetKey =>
        var (r', c) := Pop(r);
        var s := Run(r', events[1..]);
        (s.0, (if c == NUL then [] else [c]) + s.1)
  }

  /** The characters that the events put in. */
  function Typed(events: seq<Event>): (t: string) {
    if events == [] then [] else
      (if events[0].Key? && events[0].c != NUL then [events[0].c] else []) + Typed(events[1..])
  }

  /** With `n` characters outstanding, no event pushes one more than the ring holds. */
  predicate Fits(n: nat, events: seq<Event>)
    decreases |events|
  {
    events == [] ||
    match events[0]
    case Key(c) => if c == NUL then Fits(n, events[1..]) else n < SIZE && Fits(n + 1, events[1..])
    case GetKey => Fits(if n == 0 then 0 else n - 1, events[1..])
  }

  /**
   Characters come out in the order in which they went in, none lost and none twice, as long as no
   more than the ring holds are outstanding.
   */
  lemma {:induction false} RunIsFifo(r: Ring, q: string, events: seq<Event>) returns (q': string)
    requires Holds(r, q) && Fits(|q|, events)
    ensures var s := Run(r, events);
            Holds(s.0, q') && q + Typed(events) == s.1 + q'
    decreases |events|
  {
    HoldsAtMost(r, q);
    if events == [] {
      return q;
    }
    hide Holds, Push, Pop, Run, Typed;
    match events[0] {
      case Key(c) =>
        if c == NUL {
          q' := RunIsFifo(r, q, events[1..]);
        } else {
          PushAdds(r, q, c);
          q' := RunIsFifo(Push(r, c), q + [c], events[1..]);
        }
        KeyStep(r, q, events);
      case GetKey =>
        PopTakes(r, q);
        q' := RunIsFifo(Pop(r).0, if q == [] then q else q[1..], events[1..]);
        GetKeyStep(r, q, events, q');
    }
  }

  lemma KeyStep(r: Ring, q: string, events: seq<Event>)
    requires Sized(r) && events != [] && events[0].Key?
    ensures var c, rest := events[0].c, events[1..];
            var was := if c == NUL then q else q + [c];
            && Run(r, events) == Run(if c == NUL then r else Push(r, c), rest)
            && q + Typed(events) == was + Typed(rest)
  {
    Regrouped(q, [events[0].c], Typed(events[1..]));
  }

  lemma GetKeyStep(r: Ring, q: string, events: seq<Event>, q': string)
    requires Sized(r) && events != [] && events[0].GetKey? && NUL !in q
    requires Pop(r).1 == if q == [] then NUL else q[0]
    requires var was, t := if q == [] then q else q[1..], Run(Pop(r).0, events[1..]);
             was + Typed(events[1..]) == t.1 + q'
    ensures Run(r, events).0 == Run(Pop(r).0, events[1..]).0
    ensures q + Typed(events) == Run(r, events).1 + q'
  {
    hide Pop, Push;
    if q != [] {
      Regrouped([q[0]], q[1..], Typed(events[1..]));
      Regrouped([q[0]], Run(Pop(r).0, events[1..]).1, q');
      assert q == [q[0]] + q[1..];
    }
  }

  // ---------- a ring that overflowed stays out of step ----------

  /** The number of characters in the cells. */
  function Used(cells: string): (n: nat) {
    if cells == [] then 0 else (if cells[0] == NUL then 0 else 1) + Used(cells[1..])
  }

  lemma {:induction false} UsedAfterWrite(cells: string, i: nat, c: char)
    requires i < |cells|
    ensures Used(cells[i := c]) == Used(cells) - (if cells[i] == NUL then 0 else 1) + (if c == NUL then 0 else 1)
  {
    if i == 0 {
      assert cells[0 := c] == [c] + cells[1..];
    } else {
      assert cells[i := c][1..] == cells[1..][i - 1 := c];
      UsedAfterWrite(cells[1..], i - 1, c);
    }
  }

  lemma UsedNone(cells: string)
    requires forall i :: 0 <= i < |cells| ==> cells[i] == NUL
    ensures Used(cells) == 0
  {
  }

  lemma {:induction false} UsedIsLength(r: Ring, q: string)
    requires Holds(r, q)
    ensures Used(r.cells) == |q|
    decreases |q|
  {
    if q == [] {
      forall i | 0 <= i < SIZE
        ensures r.cells[i] == NUL
      {
        UsedCells(r, q, i);
      }
      UsedNone(r.cells);
    } else {
      PopTakes(r, q);
      UsedIsLength(Pop(r).0, q[1..]);
      UsedAfterWrite(r.cells, r.head % SIZE, NUL);
    }
  }

  /** Whatever the ring holds, what goes in without coming out makes up at least the growth in use. */
  lemma {:induction false} UseGrowsAtMost(r: Ring, events: seq<Event>)
    requires Sized(r)
    ensures Used(Run(r, events).0.cells) - Used(r.cells) <= |Typed(events)| - |Run(r, events).1|
    decreases |events|
  {
    if events != [] {
      match events[0] {
        case Key(c) =>
          UsedAfterWrite(r.cells, r.tail % SIZE, c);
          UseGrowsAtMost(Push(r, c), events[1..]);
        case GetKey =>
          UsedAfterWrite(r.cells, r.head % SIZE, NUL);
          UseGrowsAtMost(Pop(r).0, events[1..]);
      }
    }
  }

  /** A key typed into a full ring takes the place of the oldest character. */
  lemma FullRingLoses(r: Ring, q: string, events: seq<Event>)
    requires Holds(r, q) && |q| == SIZE && events != [] && events[0].Key? && events[0].c != NUL
    ensures Used(Run(r, events).0.cells) < |q| + |Typed(events)| - |Run(r, events).1|
  {
    var c := events[0].c;
    UsedIsLength(r, q);
    CellFacts(r.head, SIZE);
    assert r.cells[Cell(r.head, 0)] == q[0];
    UsedAfterWrite(r.cells, r.tail % SIZE, c);
    UseGrowsAtMost(Push(r, c), events[1..]);
  }

  lemma GetKeyCounts(r: Ring, events: seq<Event>)
    requires Sized(r) && events != [] && events[0].GetKey?
    ensures var (t, c) := Pop(r);
            && Run(r, events).0 == Run(t, events[1..]).0 && |Typed(events)| == |Typed(events[1..])|
            && |Run(r, events).1| == (if c == NUL then 0 else 1) + |Run(t, events[1..]).1|
  {
  }

  lemma {:induction false} OverflowLoses(r: Ring, q: string, events: seq<Event>)
    requires Holds(r, q) && !Fits(|q|, events)
    ensures Used(Run(r, events).0.cells) < |q| + |Typed(events)| - |Run(r, events).1|
    decreases |events|
  {
    hide Holds, Push, Pop, Run, Typed;
    HoldsAtMost(r, q);
    match events[0] {
      case Key(c) =>
        KeyStep(r, q, events);
        if c == NUL {
          OverflowLoses(r, q, events[1..]);
        } else if |q| < SIZE {
          PushAdds(r, q, c);
          OverflowLoses(Push(r, c), q + [c], events[1..]);
        } else {
          FullRingLoses(r, q, events);
        }
      case GetKey =>
        PopTakes(r, q);
        OverflowLoses(Pop(r).0, if q == [] then q else q[1..], events[1..]);
        GetKeyCounts(r, events);
    }
  }

  /** The ring is a first-in-first-out queue over a run if and only if it never overflows. */
  lemma FifoExactlyWhen(r: Ring, q: string, events: seq<Event>)
    requires Holds(r, q)
    ensures Fits(|q|, events) <==>
              exists q' :: Holds(Run(r, events).0, q') && q + Typed(events) == Run(r, events).1 + q'
  {
    HoldsAtMost(r, q);
    if Fits(|q|, events) {
      var _ := RunIsFifo(r, q, events);
    } else {
      OverflowLoses(r, q, events);
      forall q' | Holds(Run(r, events).0, q')
        ensures q + Typed(events) != Run(r, events).1 + q'
      {
        UsedIsLength(Run(r, events).0, q');
        assert |q + Typed(events)| != |Run(r, events).1 + q'|;
      }
    }
  }

  lemma Regrouped(a: string, b: string, c: string)
    ensures a + (b + c) == a + b + c
  {
  }

  lemma HoldsAtMost(r: Ring, q: string)
    requires Holds(r, q)
    ensures Sized(r) && |q| <= SIZE && NUL !in q
  {
  }

  lemma EmptyHoldsNothing()
    ensures Holds(EMPTY, [])
  {
  }

  // ---------- the buffer in memory ----------

  class KeyboardBuffer {
    var buffer: array<char>
    var tail: word
    var head: word
    /** The characters outstanding. */
    ghost var queue: string

    ghost function Contents(): Ring
      reads this, buffer
    {
      Ring(buffer[..], head, tail)
    }

    ghost predicate Valid()
      reads this, buffer
    {
      buffer.Length == SIZE && Holds(Contents(), queue)
    }

    /** The buffer of a new, zeroed process */
    constructor ()
      ensures Valid() && queue == [] && fresh(buffer)
    {
      buffer := new char[SIZE](_ => NUL);
      tail, head, queue := 0, 0, [];
      new;
      assert buffer[..] == EMPTY.cells;
      EmptyHoldsNothing();
    }

    /** keyboard_get_tail_index */
    function TailIndex(): (i: nat)
      reads this
      ensures i < SIZE
    {
      tail % SIZE
    }

    /** keyboard_push; into a full ring it overwrites the oldest character */
    method KeyboardPush(c: char)
      requires buffer.Length == SIZE
      modifies this, buffer
      ensures buffer == old(buffer) && Contents() == Push(old(Contents()), c)
      ensures queue == if c == NUL then old(queue) else old(queue) + [c]
      ensures old(Valid()) ==> (Valid() <==> c == NUL || |old(queue)| < SIZE)
    {
      if c == NUL {
        return;
      }
      if Valid() && |queue| < SIZE {
        PushAdds(Contents(), queue, c);
      }
      var realIndex := TailIndex();
      buffer[realIndex] := c;
      tail := Wrap(tail + 1);
      queue := queue + [c];
      assert Contents() == Push(old(Contents()), c);
    }

    /** keyboard_pop */
    method KeyboardPop() returns (c: char)
      requires buffer.Length == SIZE
      modifies this, buffer
      ensures buffer == old(buffer) && (Contents(), c) == Pop(old(Contents()))
      ensures old(Valid()) ==>
                && Valid()
                && if old(queue) == [] then c == NUL && queue == []
                   else c == old(queue)[0] != NUL && queue == old(queue)[1..]
    {
      if Valid() {
        PopTakes(Contents(), queue);
      }
      var realIndex := head % SIZE;
      c := buffer[realIndex];
      if c == NUL {
        return;
      }
      buffer[realIndex] := NUL;
      head := Wrap(head + 1);
      queue := if queue == [] then [] else queue[1..];
      assert Contents() == Pop(old(Contents())).0;
    }
  }
}
