/**
 Whole runs of the task list (src/task/task.c): from the history of creations and removals alone, when
 the list is right after every step.
 */
module TaskHistory {
  import opened TaskList

  /** task_new with the address that its struct is given, or the removal of task number `k` of the list. */
  datatype Op = Create(task: Address) | Delete(k: nat)

  /**
   What happened so far. Tasks are numbered by birth: `born[i]` is the address of number `i`, `before[i]`
   the number that was last on the list when it was created, or -1, and `alive` the numbers not removed yet.
   */
  datatype Book = Book(born: seq<Address>, before: seq<int>, alive: seq<nat>)

  const NO_TASKS := Book([], [], [])

  ghost predicate Sane(b: Book) {
    && |b.before| == |b.born|
    && (forall i :: 0 <= i < |b.alive| ==> b.alive[i] < |b.born|)
    && (forall i, j :: 0 <= i < j < |b.alive| ==> b.alive[i] < b.alive[j])
    && (forall n :: 0 <= n < |b.born| ==> -1 <= b.before[n] < n)
  }

  /** The list in creation order. */
  ghost function Tasks(b: Book): (ts: seq<Address>)
    requires Sane(b)
    ensures |ts| == |b.alive| && forall i :: 0 <= i < |ts| ==> ts[i] == b.born[b.alive[i]]
  {
    seq(|b.alive|, i requires 0 <= i < |b.alive| => b.born[b.alive[i]])
  }

  /** The heap hands out addresses that are in use by no task on the list. */
  ghost predicate Possible(b: Book, op: Op)
    requires Sane(b)
  {
    match op
    case Create(task) => task != NULL && task !in Tasks(b)
    case Delete(k) => k < |b.alive|
  }

  function LastAlive(b: Book): int {
    if b.alive == [] then -1 else b.alive[|b.alive| - 1]
  }

  ghost function Noted(b: Book, op: Op): (c: Book)
    requires Sane(b) && Possible(b, op)
    ensures Sane(c)
  {
    match op
    case Create(task) => Book(b.born + [task], b.before + [LastAlive(b)], b.alive + [|b.born|])
    case Delete(k) => b.(alive := b.alive[..k] + b.alive[k + 1..])
  }

  /**
   The first task may go unless the address of the one before it at its creation names a task on the
   list again; any other may go as long as the one before it at its creation has not.
   */
  ghost predicate Clean(b: Book, op: Op)
    requires Sane(b) && Possible(b, op)
  {
    match op
    case Create(_) => true
    case Delete(k) =>
      var p := b.before[b.alive[k]];
      if k == 0 then p == -1 || b.born[p] !in Tasks(b) else p in b.alive
  }

  /** The code's own step. */
  ghost function Step(l: Links, b: Book, op: Op): Links
    requires Sane(b) && Possible(b, op) && Proper(l, Tasks(b))
  {
    match op
    case Create(task) => Added(l, task)
    case Delete(k) =>
      ProperLinks(l, Tasks(b), k);
      Removed(l, Tasks(b)[k])
  }

  // ---------- what the back links remember ----------

  /** Back links still name the predecessor at creation. */
  ghost predicate BackNames(prev: map<Address, Address>, b: Book)
    requires Sane(b)
  {
    forall i {:trigger b.alive[i]} :: 0 <= i < |b.alive| ==>
      var n := b.alive[i];
      b.born[n] in prev && prev[b.born[n]] == if b.before[n] == -1 then NULL else b.born[b.before[n]]
  }

  /** Nothing that is still on the list came between a task and its predecessor at creation. */
  ghost predicate Ordered(b: Book)
    requires Sane(b)
  {
    forall i, j :: 0 <= i < j < |b.alive| ==> b.before[b.alive[j]] >= b.alive[i]
  }

  /** No address was given out while a task on the list had it. */
  ghost predicate Unreused(b: Book)
    requires Sane(b)
  {
    && NULL !in b.born
    && forall i, n {:trigger b.alive[i], b.born[n]} :: 0 <= i < |b.alive| && b.alive[i] < n < |b.born| ==>
         b.born[n] != b.born[b.alive[i]]
  }

  ghost predicate Remembered(l: Links, b: Book)
    requires Sane(b)
  {
    BackNames(l.prev, b) && Ordered(b) && Unreused(b)
  }

  lemma CleanIsRemovable(l: Links, b: Book, k: nat)
    requires Sane(b) && Remembered(l, b) && Proper(l, Tasks(b)) && k < |b.alive|
    ensures Tasks(b)[k] in l.prev
    ensures Clean(b, Delete(k)) <==> Removable(Tasks(b), k, l.prev[Tasks(b)[k]])
  {
    hide Proper;
    var n := b.alive[k];
    var p := b.before[n];
    if k > 0 {
      var m := b.alive[k - 1];
      assert p >= m;
      if p in b.alive {
        var i :| 0 <= i < |b.alive| && b.alive[i] == p;
        assert i == k - 1;
      }
    } else {
      NullIsNoTask(l, b);
    }
  }

  lemma NullIsNoTask(l: Links, b: Book)
    requires Sane(b) && Proper(l, Tasks(b))
    ensures NULL !in Tasks(b)
  {
  }

  lemma TasksAfterCreate(b: Book, task: Address)
    requires Sane(b) && Possible(b, Create(task))
    ensures Tasks(Noted(b, Create(task))) == Tasks(b) + [task]
  {
  }

  lemma TasksAfterDelete(b: Book, k: nat)
    requires Sane(b) && Possible(b, Delete(k))
    ensures Tasks(Noted(b, Delete(k))) == Without(Tasks(b), k)
  {
  }

  lemma OrderedAfterCreate(b: Book, task: Address)
    requires Sane(b) && Possible(b, Create(task)) && Ordered(b) && Unreused(b)
    ensures Ordered(Noted(b, Create(task))) && Unreused(Noted(b, Create(task)))
  {
    hide LastAlive;
    var c := Noted(b, Create(task));
    LastOfAlive(b);
    forall i, j | 0 <= i < j < |c.alive|
      ensures c.before[c.alive[j]] >= c.alive[i]
    {
    }
    forall i, n | 0 <= i < |c.alive| && c.alive[i] < n < |c.born|
      ensures c.born[n] != c.born[c.alive[i]]
    {
      if n == |b.born| {
        assert Tasks(b)[i] == b.born[b.alive[i]];
      }
    }
  }

  lemma LastOfAlive(b: Book)
    requires Sane(b)
    ensures LastAlive(b) == if b.alive == [] then -1 else b.alive[|b.alive| - 1]
  {
  }

  lemma BackNamesAfterCreate(prev: map<Address, Address>, b: Book, task: Address)
    requires Sane(b) && Possible(b, Create(task)) && BackNames(prev, b)
    ensures BackNames(prev[task := if b.alive == [] then NULL else b.born[LastAlive(b)]], Noted(b, Create(task)))
  {
    var c := Noted(b, Create(task));
    forall i | 0 <= i < |b.alive|
      ensures c.alive[i] == b.alive[i] && b.born[b.alive[i]] != task
    {
      assert Tasks(b)[i] == b.born[b.alive[i]];
    }
  }

  lemma RememberedAfterCreate(l: Links, b: Book, task: Address)
    requires Sane(b) && Remembered(l, b) && Possible(b, Create(task)) && Proper(l, Tasks(b))
    ensures Remembered(Added(l, task), Noted(b, Create(task)))
  {
    AddedIsProper(l, Tasks(b), task);
    hide Proper, Added, BackNames, Ordered, Unreused, Noted;
    OrderedAfterCreate(b, task);
    BackNamesAfterCreate(l.prev, b, task);
    assert At(Tasks(b), |Tasks(b)| - 1) == if b.alive == [] then NULL else b.born[LastAlive(b)];
  }

  lemma AliveAfterDelete(b: Book, k: nat, i: nat)
    requires Sane(b) && Possible(b, Delete(k)) && i < |b.alive| - 1
    ensures Noted(b, Delete(k)).alive[i] == b.alive[if i < k then i else i + 1]
  {
  }

  lemma RememberedAfterDelete(l: Links, m: Links, b: Book, k: nat)
    requires Sane(b) && Remembered(l, b) && Possible(b, Delete(k)) && m.prev == l.prev
    ensures Remembered(m, Noted(b, Delete(k)))
  {
    var c := Noted(b, Delete(k));
    hide Noted;
    assert c.born == b.born && c.before == b.before && |c.alive| == |b.alive| - 1 by {
      DeleteKeepsBirths(b, k);
    }
    forall i | 0 <= i < |c.alive|
      ensures c.alive[i] == b.alive[if i < k then i else i + 1]
    {
      AliveAfterDelete(b, k, i);
    }
    OrderedAfterDelete(b, c, k);
  }

  lemma DeleteKeepsBirths(b: Book, k: nat)
    requires Sane(b) && Possible(b, Delete(k))
    ensures var c := Noted(b, Delete(k)); c.born == b.born && c.before == b.before && |c.alive| == |b.alive| - 1
  {
  }

  lemma OrderedAfterDelete(b: Book, c: Book, k: nat)
    requires Sane(b) && Sane(c) && Ordered(b) && k < |b.alive| && c.born == b.born && c.before == b.before
    requires |c.alive| == |b.alive| - 1
    requires forall i :: 0 <= i < |c.alive| ==> c.alive[i] == b.alive[if i < k then i else i + 1]
    ensures Ordered(c)
  {
  }

  // ---------- whole runs ----------

  ghost predicate AllPossible(b: Book, ops: seq<Op>)
    requires Sane(b)
    decreases |ops|
  {
    ops == [] || (Possible(b, ops[0]) && AllPossible(Noted(b, ops[0]), ops[1..]))
  }

  /** The list is proper now and after each of the operations. */
  ghost predicate AlwaysProper(l: Links, b: Book, ops: seq<Op>)
    requires Sane(b) && AllPossible(b, ops)
    decreases |ops|
  {
    Proper(l, Tasks(b)) && (ops == [] || AlwaysProper(Step(l, b, ops[0]), Noted(b, ops[0]), ops[1..]))
  }

  ghost predicate AlwaysClean(b: Book, ops: seq<Op>)
    requires Sane(b) && AllPossible(b, ops)
    decreases |ops|
  {
    ops == [] || (Clean(b, ops[0]) && AlwaysClean(Noted(b, ops[0]), ops[1..]))
  }

  lemma StepIsProperExactlyWhen(l: Links, b: Book, op: Op)
    requires Sane(b) && Possible(b, op) && Proper(l, Tasks(b)) && Remembered(l, b)
    ensures Proper(Step(l, b, op), Tasks(Noted(b, op))) <==> Clean(b, op)
    ensures Remembered(Step(l, b, op), Noted(b, op))
  {
    hide Proper, Remembered, Removable, Added, Removed;
    match op
    case Create(task) =>
      AddedIsProper(l, Tasks(b), task);
      TasksAfterCreate(b, task);
      RememberedAfterCreate(l, b, task);
    case Delete(k) =>
      ProperLinks(l, Tasks(b), k);
      CleanIsRemovable(l, b, k);
      RemovedExactlyWhen(l, Tasks(b), k);
      TasksAfterDelete(b, k);
      RememberedAfterDelete(l, Step(l, b, op), b, k);
  }

  lemma {:induction false} ProperExactlyWhenClean(l: Links, b: Book, ops: seq<Op>)
    requires Sane(b) && AllPossible(b, ops) && Proper(l, Tasks(b)) && Remembered(l, b)
    ensures AlwaysProper(l, b, ops) <==> AlwaysClean(b, ops)
    decreases |ops|
  {
    hide Proper, Remembered, Sane, Possible, Noted, Step, Clean;
    if ops != [] {
      StepIsProperExactlyWhen(l, b, ops[0]);
      if Clean(b, ops[0]) {
        ProperExactlyWhenClean(Step(l, b, ops[0]), Noted(b, ops[0]), ops[1..]);
      }
    }
  }

  /**
   Over any sequence of creations and removals from the empty list, the list stays right throughout if
   and only if each removal is clean by the history.
   */
  lemma RunsAreProperExactlyWhen(ops: seq<Op>)
    requires AllPossible(NO_TASKS, ops)
    ensures AlwaysProper(NO_LINKS, NO_TASKS, ops) <==> AlwaysClean(NO_TASKS, ops)
  {
    ProperExactlyWhenClean(NO_LINKS, NO_TASKS, ops);
  }

  // ---------- which runs are clean ----------

  /** Each task on the list was created right behind the one before it, the first on an empty list. */
  ghost predicate Stacked(b: Book)
    requires Sane(b)
  {
    && (b.alive != [] ==> b.before[b.alive[0]] == -1)
    && forall i, j :: 0 <= i < |b.alive| && j == i + 1 < |b.alive| ==> b.before[b.alive[j]] == b.alive[i]
  }

  /** Every removal takes the last task. */
  ghost predicate LastOut(b: Book, ops: seq<Op>)
    requires Sane(b) && AllPossible(b, ops)
    decreases |ops|
  {
    ops == [] || ((ops[0].Delete? ==> ops[0].k + 1 == |b.alive|) && LastOut(Noted(b, ops[0]), ops[1..]))
  }

  /** Last in, first out is always clean. */
  lemma {:induction false} LastOutIsClean(b: Book, ops: seq<Op>)
    requires Sane(b) && AllPossible(b, ops) && LastOut(b, ops) && Stacked(b)
    ensures AlwaysClean(b, ops)
    decreases |ops|
  {
    if ops != [] {
      LastOutStep(b, ops[0]);
      LastOutIsClean(Noted(b, ops[0]), ops[1..]);
    }
  }

  lemma LastOutStep(b: Book, op: Op)
    requires Sane(b) && Possible(b, op) && Stacked(b) && (op.Delete? ==> op.k + 1 == |b.alive|)
    ensures Clean(b, op) && Stacked(Noted(b, op))
  {
    var c := Noted(b, op);
    match op
    case Create(task) =>
      LastOfAlive(b);
    case Delete(k) =>
      assert k > 0 ==> b.before[b.alive[k]] == b.alive[k - 1];
      assert c.alive == b.alive[..k];
  }

  /** Once a task from the middle is gone, the one created behind it cannot go cleanly before all those ahead of it. */
  lemma MiddleFirst(b: Book, k: nat)
    requires Sane(b) && 0 < k && k + 1 < |b.alive| && b.before[b.alive[k + 1]] == b.alive[k]
    ensures Noted(b, Delete(k)).alive[k] == b.alive[k + 1]
    ensures !Clean(Noted(b, Delete(k)), Delete(k))
  {
  }
}
