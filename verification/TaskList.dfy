/**
 The scheduler's task list (src/task/task.c): a doubly linked list of heap structs whose back links
 are never repaired. Tasks are named by their addresses, because the heap hands the block of a freed
 task out again, so that a stale back link can come to name a different, live task.
 */
module TaskList {
  import opened Words

  type Address = word
  const NULL: Address := 0

  /** No address occurs twice, and null not at all. */
  ghost predicate Distinct(ts: seq<Address>) {
    NULL !in ts && forall i, j :: 0 <= i < j < |ts| ==> ts[i] != ts[j]
  }

  /** The task at index `i`, or null past either end. */
  function At(ts: seq<Address>, i: int): Address {
    if 0 <= i < |ts| then ts[i] else NULL
  }

  /** Following the `next` fields visits the tasks `ts` in order, and then ends. */
  ghost predicate Chain(ts: seq<Address>, next: map<Address, Address>) {
    forall i {:trigger ts[i]} :: 0 <= i < |ts| ==> ts[i] in next && next[ts[i]] == At(ts, i + 1)
  }

  /** `head` and `tail` are the two ends, and `current` is on the list, or null when it is empty. */
  ghost predicate Ends(ts: seq<Address>, head: Address, tail: Address, current: Address) {
    && head == At(ts, 0)
    && (ts != [] ==> tail == ts[|ts| - 1])
    && (if ts == [] then current == NULL else current in ts)
  }

  /** No task's back link names the task itself. */
  ghost predicate BackLinks(ts: seq<Address>, prev: map<Address, Address>) {
    forall t :: t in ts ==> t in prev && prev[t] != t
  }

  /** `ts` without its element at index `k`. */
  function Without(ts: seq<Address>, k: nat): (us: seq<Address>)
    requires k < |ts|
    ensures |us| == |ts| - 1 && forall i :: 0 <= i < |us| ==> us[i] == if i < k then ts[i] else ts[i + 1]
  {
    ts[..k] + ts[k + 1..]
  }

  /** The number of task `t`. */
  function Position(ts: seq<Address>, t: Address): (k: nat)
    requires t in ts
    ensures k < |ts| && ts[k] == t
  {
    if ts[0] == t then 0 else 1 + Position(ts[1..], t)
  }

  /**
   The address a task's `prev` field has to hold for the list to be right without the task. For the
   first one this may be a freed block, into which unlinking then writes; what that block holds now
   is a question for the rest of the kernel.
   */
  ghost predicate Removable(ts: seq<Address>, k: nat, prev: Address)
    requires k < |ts|
  {
    if k == 0 then prev !in ts else prev == ts[k - 1]
  }

  /** The `next` fields after `task->prev->next = task->next`, skipped for a null `prev`. */
  function Relinked(next: map<Address, Address>, task: Address, prev: Address): map<Address, Address>
    requires task in next
  {
    if prev == NULL then next else next[prev := next[task]]
  }

  /** The three globals, and the `next` and `prev` fields of every block that ever held a task. */
  datatype Links = Links(head: Address, tail: Address, current: Address,
                         next: map<Address, Address>, prev: map<Address, Address>)

  const NO_LINKS := Links(NULL, NULL, NULL, map[], map[])

  /** The links describe the list `ts`. */
  ghost predicate Proper(l: Links, ts: seq<Address>) {
    Distinct(ts) && Chain(ts, l.next) && BackLinks(ts, l.prev) && Ends(ts, l.head, l.tail, l.current)
  }

  /** task_new, as far as the list goes; `task` is the address of the new zeroed struct. */
  function Added(l: Links, task: Address): (m: Links) {
    var next, prev := l.next[task := NULL], l.prev[task := NULL];
    if l.head == NULL then Links(task, task, task, next, prev)
    else Links(l.head, task, l.current, next[l.tail := task], prev[task := l.tail])
  }

  /** task_list_remove */
  function Removed(l: Links, task: Address): (m: Links)
    requires task in l.next && task in l.prev
    ensures m.prev == l.prev
  {
    var head := if task == l.head then l.next[task] else l.head;
    var tail := if task == l.tail then l.prev[task] else l.tail;
    var current := if task != l.current then l.current else if l.next[task] != NULL then l.next[task] else head;
    Links(head, tail, current, Relinked(l.next, task, l.prev[task]), l.prev)
  }

  // ---------- adding and removing, on values ----------

  lemma ChainExtended(ts: seq<Address>, next: map<Address, Address>, t: Address)
    requires Distinct(ts) && Chain(ts, next) && ts != [] && t != NULL && t !in ts
    ensures Distinct(ts + [t])
    ensures Chain(ts + [t], next[t := NULL][ts[|ts| - 1] := t])
  {
    var us, n := ts + [t], next[t := NULL][ts[|ts| - 1] := t];
    forall i | 0 <= i < |us|
      ensures us[i] in n && n[us[i]] == At(us, i + 1)
    {
      if i < |ts| {
        assert us[i] == ts[i];
      }
    }
  }

  lemma ChainOfOne(next: map<Address, Address>, t: Address)
    requires t != NULL
    ensures Distinct([] + [t]) && Chain([] + [t], next[t := NULL])
  {
  }

  lemma EndsExtended(ts: seq<Address>, t: Address, head: Address, tail: Address, current: Address)
    requires Distinct(ts) && Ends(ts, head, tail, current)
    ensures head == NULL <==> ts == []
    ensures ts != [] ==> tail == ts[|ts| - 1]
    ensures if ts == [] then Ends(ts + [t], t, t, t) else Ends(ts + [t], head, t, current)
  {
  }

  /** task_new leaves a proper list. */
  lemma AddedIsProper(l: Links, ts: seq<Address>, t: Address)
    requires Proper(l, ts) && t != NULL && t !in ts
    ensures Proper(Added(l, t), ts + [t]) && (l.head == NULL <==> ts == [])
    ensures Added(l, t).prev == l.prev[t := if ts == [] then NULL else At(ts, |ts| - 1)]
  {
    BackLinksExtended(ts, l.prev, t, if ts == [] then NULL else l.tail);
    if ts == [] {
      ChainOfOne(l.next, t);
    } else {
      ChainExtended(ts, l.next, t);
    }
    EndsExtended(ts, t, l.head, l.tail, l.current);
    hide Chain, Distinct, BackLinks, Ends;
    assert l.prev[t := NULL][t := l.tail] == l.prev[t := l.tail];
  }

  lemma BackLinksExtended(ts: seq<Address>, prev: map<Address, Address>, t: Address, p: Address)
    requires BackLinks(ts, prev) && p != t
    ensures BackLinks(ts + [t], prev[t := p])
  {
  }

  lemma DistinctWithout(ts: seq<Address>, k: nat)
    requires Distinct(ts) && k < |ts|
    ensures Distinct(Without(ts, k)) && ts[k] !in Without(ts, k)
  {
  }

  /**
   Unlinking task `k` leaves the chain of the others exactly when its back link is right: it names
   the predecessor or, for the first task, nothing on the list. A stale link elsewhere leaves the
   predecessor pointing at the removed task; one that names a reused address of a later task closes
   a cycle.
   */
  lemma {:induction false} UnlinkExactlyWhen(ts: seq<Address>, next: map<Address, Address>, k: nat, prev: Address)
    requires Distinct(ts) && Chain(ts, next) && k < |ts| && prev != ts[k]
    ensures Chain(Without(ts, k), Relinked(next, ts[k], prev)) <==> Removable(ts, k, prev)
  {
    if Removable(ts, k, prev) {
      UnlinkRight(ts, next, k, prev);
    } else {
      UnlinkWrong(ts, next, k, prev);
    }
  }

  lemma UnlinkRight(ts: seq<Address>, next: map<Address, Address>, k: nat, prev: Address)
    requires Distinct(ts) && Chain(ts, next) && k < |ts| && Removable(ts, k, prev)
    ensures Chain(Without(ts, k), Relinked(next, ts[k], prev))
  {
    var us, n := Without(ts, k), Relinked(next, ts[k], prev);
    forall i | 0 <= i < |us|
      ensures us[i] in n && n[us[i]] == At(us, i + 1)
    {
      LinkRight(ts, next, k, prev, i);
    }
  }

  lemma LinkRight(ts: seq<Address>, next: map<Address, Address>, k: nat, prev: Address, i: nat)
    requires Distinct(ts) && Chain(ts, next) && k < |ts| && Removable(ts, k, prev) && i < |ts| - 1
    ensures var us, n := Without(ts, k), Relinked(next, ts[k], prev);
            us[i] in n && n[us[i]] == At(us, i + 1)
  {
    hide Chain, Distinct;
    var us := Without(ts, k);
    var j := if i < k then i else i + 1;
    LinkOf(ts, next, j);
    LinkOf(ts, next, k);
    Apart(ts, j, k - 1);
    assert At(us, i + 1) == if i + 1 == k then At(ts, k + 1) else At(ts, j + 1);
  }

  lemma LinkOf(ts: seq<Address>, next: map<Address, Address>, i: nat)
    requires Distinct(ts) && Chain(ts, next) && i < |ts|
    ensures ts[i] != NULL && ts[i] in next && next[ts[i]] == At(ts, i + 1)
  {
  }

  lemma Apart(ts: seq<Address>, i: int, j: int)
    requires Distinct(ts)
    ensures 0 <= i < |ts| && 0 <= j < |ts| && i != j ==> ts[i] != ts[j]
  {
  }

  lemma UnlinkWrong(ts: seq<Address>, next: map<Address, Address>, k: nat, prev: Address)
    requires Distinct(ts) && Chain(ts, next) && k < |ts| && !Removable(ts, k, prev) && prev != ts[k]
    ensures !Chain(Without(ts, k), Relinked(next, ts[k], prev))
  {
    var us, n := Without(ts, k), Relinked(next, ts[k], prev);
    assert next[ts[k]] == At(ts, k + 1);
    if k > 0 {
      assert us[k - 1] == ts[k - 1] && n[us[k - 1]] == ts[k];
      assert At(us, k) == At(ts, k + 1) != ts[k];
    } else {
      var j :| 0 < j < |ts| && ts[j] == prev;
      assert us[j - 1] == ts[j] && n[us[j - 1]] == ts[1];
      assert At(us, j) == At(ts, j + 1) != ts[1];
    }
  }

  /** What becomes of both ends of the list and of the running task. */
  lemma EndsWithout(ts: seq<Address>, k: nat, prev: Address, head: Address, tail: Address, current: Address)
    requires Distinct(ts) && k < |ts| && Ends(ts, head, tail, current) && Removable(ts, k, prev)
    ensures var h := if head == ts[k] then At(ts, k + 1) else head;
            var t := if tail == ts[k] then prev else tail;
            Ends(Without(ts, k), h, t,
                 if current != ts[k] then current else if At(ts, k + 1) != NULL then At(ts, k + 1) else h)
  {
    Apart(ts, 0, k);
    Apart(ts, k, k + 1);
    Apart(ts, k, |ts| - 1);
    WithoutHas(ts, k, current);
    WithoutHas(ts, k, At(ts, k + 1));
  }

  lemma WithoutHas(ts: seq<Address>, k: nat, t: Address)
    requires Distinct(ts) && k < |ts|
    ensures t in Without(ts, k) <==> t in ts && t != ts[k]
  {
    DistinctWithout(ts, k);
    if t in ts && t != ts[k] {
      var j :| 0 <= j < |ts| && ts[j] == t;
      assert Without(ts, k)[if j < k then j else j - 1] == t;
    }
  }

  lemma WithoutAt(ts: seq<Address>, k: nat)
    requires k < |ts|
    ensures At(Without(ts, k), k) == At(ts, k + 1)
  {
  }

  lemma BackLinksWithout(ts: seq<Address>, k: nat, prev: map<Address, Address>)
    requires BackLinks(ts, prev) && k < |ts|
    ensures BackLinks(Without(ts, k), prev)
  {
  }

  lemma ProperLinks(l: Links, ts: seq<Address>, k: nat)
    requires Proper(l, ts) && k < |ts|
    ensures ts[k] != NULL && ts[k] in l.next && ts[k] in l.prev && l.prev[ts[k]] != ts[k]
    ensures l.next[ts[k]] == At(ts, k + 1) && (At(ts, k + 1) == NULL <==> k + 1 == |ts|)
  {
  }

  /**
   task_list_remove leaves a proper list exactly when the back link was right. The running task's
   place goes to its successor, or from the last task to the first.
   */
  lemma RemovedExactlyWhen(l: Links, ts: seq<Address>, k: nat)
    requires Proper(l, ts) && k < |ts| && ts[k] in l.next && ts[k] in l.prev
    ensures Proper(Removed(l, ts[k]), Without(ts, k)) <==> Removable(ts, k, l.prev[ts[k]])
    ensures l.current == ts[k] && Removable(ts, k, l.prev[ts[k]]) ==>
              Removed(l, ts[k]).current == if k + 1 < |ts| then ts[k + 1] else At(Without(ts, k), 0)
  {
    var prev := l.prev[ts[k]];
    ProperLinks(l, ts, k);
    UnlinkExactlyWhen(ts, l.next, k, prev);
    DistinctWithout(ts, k);
    BackLinksWithout(ts, k, l.prev);
    if Removable(ts, k, prev) {
      EndsWithout(ts, k, prev, l.head, l.tail, l.current);
      HeadWithout(ts, k, prev, l.head, l.tail, l.current);
    }
    hide Chain, Distinct, BackLinks, Ends, Removable, Relinked, Without;
  }

  lemma HeadWithout(ts: seq<Address>, k: nat, prev: Address, head: Address, tail: Address, current: Address)
    requires Distinct(ts) && k < |ts| && Ends(ts, head, tail, current)
    ensures (if head == ts[k] then At(ts, k + 1) else head) == At(Without(ts, k), 0)
  {
    Apart(ts, 0, k);
  }

  /** After the first task goes, its successor stays removable until the freed address is reused. */
  lemma SuccessorOfFirst(ts: seq<Address>, prev: map<Address, Address>)
    requires Distinct(ts) && |ts| > 1 && ts[1] in prev && prev[ts[1]] == ts[0]
    ensures Removable(Without(ts, 0), 0, prev[ts[1]])
    ensures !Removable(Without(ts, 0) + [ts[0]], 0, prev[ts[1]])
  {
    var us := Without(ts, 0) + [ts[0]];
    assert us[|us| - 1] == ts[0];
    DistinctWithout(ts, 0);
  }

  /** After any other goes, its successor can no longer be removed cleanly. */
  lemma SuccessorOfLater(ts: seq<Address>, k: nat, prev: map<Address, Address>)
    requires Distinct(ts) && 0 < k < |ts| - 1 && ts[k + 1] in prev && prev[ts[k + 1]] == ts[k]
    ensures Without(ts, k)[k] == ts[k + 1] && !Removable(Without(ts, k), k, prev[ts[k + 1]])
  {
  }

  // ---------- the list in memory ----------

  class Scheduler {
    var head: Address
    var tail: Address
    var current: Address
    var next: map<Address, Address>
    var prev: map<Address, Address>
    /** The tasks on the list, in creation order. */
    ghost var tasks: seq<Address>

    ghost function Value(): Links
      reads this
    {
      Links(head, tail, current, next, prev)
    }

    ghost predicate Valid()
      reads this
    {
      Proper(Value(), tasks)
    }

    constructor ()
      ensures Value() == NO_LINKS && Valid() && tasks == []
    {
      head, tail, current := NULL, NULL, NULL;
      next, prev := map[], map[];
      tasks := [];
    }

    /** task_new, as far as the list goes, whatever it looks like */
    method Link(task: Address)
      modifies this`next, this`prev, this`head, this`tail, this`current
      ensures Value() == Added(old(Value()), task)
    {
      next := next[task := NULL];
      prev := prev[task := NULL];
      if head == NULL {
        head := task;
        tail := task;
        current := task;
        return;
      }
      next := next[tail := task];
      prev := prev[task := tail];
      tail := task;
    }

    /** The same for a proper list; `task` is the address of the new zeroed struct. */
    method New(task: Address)
      requires Valid() && task != NULL && task !in tasks
      modifies this
      ensures Value() == Added(old(Value()), task)
      ensures Valid() && tasks == old(tasks) + [task]
      ensures current == if old(tasks) == [] then task else old(current)
    {
      AddedIsProper(Value(), tasks, task);
      hide Proper, At;
      Link(task);
      tasks := tasks + [task];
    }

    /** task_get_next */
    function GetNext(): Address
      requires current in next
      reads this
    {
      if next[current] == NULL then head else next[current]
    }

    /** task_next, as far as the choice goes */
    method Next(ghost i: nat)
      requires Valid() && i < |tasks| && tasks[i] == current
      modifies this`current
      ensures Valid() && current == tasks[Turn(|tasks|, i, 1)]
    {
      LinkOf(tasks, next, i);
      LinkOf(tasks, next, 0);
      hide Chain, Distinct, BackLinks;
      var task := GetNext();
      assert Turn(|tasks|, i, 1) == if i + 1 == |tasks| then 0 else i + 1 by {
        assert Turn(|tasks|, i, 0) == i;
      }
      current := task;
    }

    /** task_list_remove, whatever the list looks like */
    method Unlink(task: Address)
      requires task in next && task in prev
      modifies this`next, this`head, this`tail, this`current
      ensures Value() == Removed(old(Value()), task)
    {
      if prev[task] != NULL {
        next := next[prev[task] := next[task]];
      }
      if task == head {
        head := next[task];
      }
      if task == tail {
        tail := prev[task];
      }
      if task == current {
        current := GetNext();
      }
    }

    /**
     The same for task number `k` of a proper list: the others form one afterwards exactly when the
     back link was right.
     */
    method Remove(task: Address, ghost k: nat)
      requires Valid() && k < |tasks| && tasks[k] == task
      modifies this
      ensures tasks == Without(old(tasks), k) && prev == old(prev)
      ensures task in old(next) && task in prev && Value() == Removed(old(Value()), task)
      ensures Valid() <==> Removable(old(tasks), k, prev[task])
      ensures old(current) == task && Removable(old(tasks), k, prev[task]) ==>
                current == if k + 1 < |old(tasks)| then old(tasks)[k + 1] else At(tasks, 0)
    {
      ProperLinks(Value(), tasks, k);
      RemovedExactlyWhen(Value(), tasks, k);
      hide Proper, At, Removable, Without, Removed;
      Unlink(task);
      tasks := Without(tasks, k);
    }

    /**
     isr80h_command9_exit: the running task goes, and then the processor. Removal has already moved
     `current` to the successor, so that task_next passes over it.
     */
    method Exit(ghost k: nat)
      requires Valid() && 1 < |tasks| && k < |tasks| && tasks[k] == current
      requires Removable(tasks, k, prev[current])
      modifies this
      ensures Valid() && tasks == Without(old(tasks), k)
      ensures current == tasks[Turn(|tasks|, if k < |tasks| then k else 0, 1)]
      ensures |tasks| > 1 ==> current != At(tasks, k)
    {
      ghost var ts := tasks;
      ghost var i := if k + 1 < |ts| then k else 0;
      Remove(current, k);
      WithoutAt(ts, k);
      assert Turn(|tasks|, i, 1) == if i + 1 == |tasks| then 0 else i + 1 by {
        assert Turn(|tasks|, i, 0) == i;
      }
      Apart(tasks, i, Turn(|tasks|, i, 1));
      hide Chain, BackLinks, Removable, Without, Turn;
      Next(i);
    }
  }

  // ---------- whose turn it is ----------

  /** The number of the task that runs `k` turns after task number `i`, with `n` tasks on the list. */
  function Turn(n: nat, i: nat, k: nat): (j: nat)
    requires i < n
    ensures j < n
    decreases k
  {
    if k == 0 then i
    else
      var j := Turn(n, i, k - 1);
      if j + 1 == n then 0 else j + 1
  }

  /** The tasks that run in the `k` turns from task number `i` on. */
  function Turns(ts: seq<Address>, i: nat, k: nat): (run: seq<Address>)
    requires i < |ts|
    ensures |run| == k
    decreases k
  {
    if k == 0 then [] else Turns(ts, i, k - 1) + [ts[Turn(|ts|, i, k - 1)]]
  }

  lemma {:induction false} TurnIs(n: nat, i: nat, k: nat)
    requires i < n && k <= n
    ensures Turn(n, i, k) == if i + k < n then i + k else i + k - n
  {
    if k > 0 {
      TurnIs(n, i, k - 1);
    }
  }

  /**
   While the list does not change, as many turns as there are tasks give each one turn, in creation
   order from the current one round to it again.
   */
  lemma {:induction false} RoundRobin(ts: seq<Address>, i: nat)
    requires i < |ts|
    ensures Turns(ts, i, |ts|) == ts[i..] + ts[..i] && Turn(|ts|, i, |ts|) == i
    ensures multiset(Turns(ts, i, |ts|)) == multiset(ts)
  {
    TurnIs(|ts|, i, |ts|);
    forall k | 0 <= k < |ts|
      ensures Turns(ts, i, |ts|)[k] == (ts[i..] + ts[..i])[k]
    {
      TurnsAt(ts, i, |ts|, k);
      TurnIs(|ts|, i, k);
    }
    assert Turns(ts, i, |ts|) == ts[i..] + ts[..i];
    assert ts == ts[..i] + ts[i..];
  }

  lemma {:induction false} TurnsAt(ts: seq<Address>, i: nat, n: nat, k: nat)
    requires i < |ts| && k < n
    ensures Turns(ts, i, n)[k] == ts[Turn(|ts|, i, k)]
  {
    if k < n - 1 {
      TurnsAt(ts, i, n - 1, k);
    }
  }

  // ---------- tasks that arrive during a round ----------

  /** What may happen to the list between two removals. */
  datatype Event = Switch | Arrive(task: Address)

  /** The list, the running task's number and the tasks switched to so far. */
  datatype Round = Round(tasks: seq<Address>, current: nat, run: seq<Address>)

  function Play(ts: seq<Address>, i: nat, events: seq<Event>): (r: Round)
    requires i < |ts|
    ensures r.current < |r.tasks|
    decreases |events|
  {
    if events == [] then Round(ts, i, []) else
      var r := Play(ts, i, events[..|events| - 1]);
      match events[|events| - 1]
      case Arrive(t) => r.(tasks := r.tasks + [t])
      case Switch =>
        var j := Turn(|r.tasks|, r.current, 1);
        Round(r.tasks, j, r.run + [r.tasks[j]])
  }

  function Arrivals(events: seq<Event>): (ts: seq<Address>) {
    if events == [] then [] else
      var e := events[|events| - 1];
      Arrivals(events[..|events| - 1]) + if e.Arrive? then [e.task] else []
  }

  function Switches(events: seq<Event>): (n: nat) {
    if events == [] then 0 else
      Switches(events[..|events| - 1]) + if events[|events| - 1].Switch? then 1 else 0
  }

  /**
   Tasks that arrive during a round never displace one that is due before the round ends: the
   switches go to the tasks after the current one in creation order, as if none had arrived.
   */
  lemma {:induction false} ArrivalsKeepTheirPlace(ts: seq<Address>, i: nat, events: seq<Event>)
    requires i < |ts| && i + Switches(events) < |ts|
    ensures var r := Play(ts, i, events);
            r.tasks == ts + Arrivals(events) && r.current == i + Switches(events) && r.run == ts[i + 1..r.current + 1]
  {
    if events != [] {
      var before := events[..|events| - 1];
      ArrivalsKeepTheirPlace(ts, i, before);
      OneMore(ts, i, Play(ts, i, before), Arrivals(before));
    }
  }

  lemma OneMore(ts: seq<Address>, i: nat, r: Round, arrived: seq<Address>)
    requires r.tasks == ts + arrived && i <= r.current < |ts| && r.run == ts[i + 1..r.current + 1]
    ensures Turn(|r.tasks|, r.current, 1) == if r.current + 1 == |r.tasks| then 0 else r.current + 1
    ensures r.current + 1 < |ts| ==> r.run + [r.tasks[r.current + 1]] == ts[i + 1..r.current + 2]
    ensures forall t :: ts + arrived + [t] == ts + (arrived + [t])
  {
    assert Turn(|r.tasks|, r.current, 0) == r.current;
  }
}
