/**
  The compare-and-swap lock of Util.c and the slot allocation it protects
  (Server.c), for any number of threads and any interleaving of their single
  reads, writes and compare-and-swaps.
*/
module SpinLock {
  import opened Ballots

  /** Where a thread stands; the word is 1 while the lock is free. */
  datatype Thread =
    | Spinning                         // while (*lll_val != 1)
    | Trying                           // compare_and_swap(lll_val, 0, 1)
    | Taking                           // keyval = &keyVals[numKeys]
    | Loading(slot: nat)               // numKeys++: the load
    | Storing(slot: nat, seen: nat)    // numKeys++: the store
    | Unlocking(slot: nat)             // *lll_val = 1
    | Done(slot: nat)

  datatype State = State(word: int, numKeys: nat, threads: seq<Thread>)

  predicate InLock(t: Thread) {
    t.Taking? || t.Loading? || t.Storing? || t.Unlocking?
  }

  predicate HasSlot(t: Thread) {
    t.Loading? || t.Storing? || t.Unlocking? || t.Done?
  }

  /** The counter has been raised for this thread's slot. */
  predicate Counted(t: Thread) {
    t.Unlocking? || t.Done?
  }

  /** The next atomic access of thread i. */
  function Step(st: State, i: nat): State
    requires i < |st.threads|
  {
    match st.threads[i]
    case Spinning => if st.word == 1 then st.(threads := st.threads[i := Trying]) else st
    case Trying =>
      // the swap happens when the word is 1; the caller tests the old word against 0
      State(if st.word == 1 then 0 else st.word, st.numKeys,
            st.threads[i := if st.word != 0 then Taking else Spinning])
    case Taking => st.(threads := st.threads[i := Loading(st.numKeys)])
    case Loading(slot) => st.(threads := st.threads[i := Storing(slot, st.numKeys)])
    case Storing(slot, seen) => State(st.word, seen + 1, st.threads[i := Unlocking(slot)])
    case Unlocking(slot) => State(1, st.numKeys, st.threads[i := Done(slot)])
    case Done(_) => st
  }

  function Start(base: nat, m: nat): State {
    State(1, base, seq(m, _ => Spinning))
  }

  function Run(st: State, schedule: seq<nat>): (st': State)
    requires forall k :: 0 <= k < |schedule| ==> schedule[k] < |st.threads|
    ensures |st'.threads| == |st.threads|
  {
    if |schedule| == 0 then st
    else Step(Run(st, schedule[..|schedule| - 1]), schedule[|schedule| - 1])
  }

  function CountedThreads(threads: seq<Thread>): set<nat> {
    set i: nat | i < |threads| && Counted(threads[i])
  }

  predicate ThreadOk(base: nat, numKeys: nat, t: Thread) {
    match t
    case Loading(slot) => slot == numKeys
    case Storing(slot, seen) => slot == numKeys == seen
    case Unlocking(slot) => base <= slot < numKeys
    case Done(slot) => base <= slot < numKeys
    case _ => true
  }

  /** At most one thread holds the lock, and the word is 0 exactly while one does. */
  ghost predicate LockOk(word: int, threads: seq<Thread>) {
    && word in {0, 1}
    && (word == 0 <==> exists i :: 0 <= i < |threads| && InLock(threads[i]))
    && (forall i, j :: 0 <= i < j < |threads| ==> !InLock(threads[i]) || !InLock(threads[j]))
  }

  /** No two threads have the same slot. */
  ghost predicate SlotsOk(base: nat, numKeys: nat, threads: seq<Thread>) {
    && (forall i :: 0 <= i < |threads| ==> ThreadOk(base, numKeys, threads[i]))
    && (forall i, j :: 0 <= i < j < |threads| && HasSlot(threads[i]) && HasSlot(threads[j]) ==>
                         threads[i].slot != threads[j].slot)
  }

  ghost predicate Inv(base: nat, st: State) {
    && LockOk(st.word, st.threads) && SlotsOk(base, st.numKeys, st.threads)
    && st.numKeys == base + |CountedThreads(st.threads)|
  }

  lemma {:induction false} StepKeepsLock(st: State, i: nat)
    requires i < |st.threads| && LockOk(st.word, st.threads)
    ensures LockOk(Step(st, i).word, Step(st, i).threads)
  {
    var st' := Step(st, i);
    assert forall j :: 0 <= j < |st.threads| && j != i ==> st'.threads[j] == st.threads[j];
    if InLock(st'.threads[i]) {
    } else if st'.word == 0 {
      var k :| 0 <= k < |st.threads| && InLock(st.threads[k]);
      assert InLock(st'.threads[k]);
    }
  }

  lemma {:induction false} StepKeepsSlots(base: nat, st: State, i: nat)
    requires i < |st.threads| && LockOk(st.word, st.threads) && SlotsOk(base, st.numKeys, st.threads)
    requires st.numKeys >= base
    ensures SlotsOk(base, Step(st, i).numKeys, Step(st, i).threads)
  {
    var st' := Step(st, i);
    assert forall j :: 0 <= j < |st.threads| && j != i ==> st'.threads[j] == st.threads[j];
    assert ThreadOk(base, st.numKeys, st.threads[i]);
    forall j | 0 <= j < |st.threads| ensures ThreadOk(base, st'.numKeys, st'.threads[j]) {
      assert ThreadOk(base, st.numKeys, st.threads[j]);
    }
    forall j | 0 <= j < |st.threads| && j != i && HasSlot(st.threads[j]) && HasSlot(st'.threads[i])
      ensures st.threads[j].slot != st'.threads[i].slot
    {
      assert ThreadOk(base, st.numKeys, st.threads[j]);
    }
  }

  lemma {:induction false} StepKeepsInv(base: nat, st: State, i: nat)
    requires Inv(base, st) && i < |st.threads|
    ensures Inv(base, Step(st, i))
  {
    var st' := Step(st, i);
    StepKeepsLock(st, i);
    StepKeepsSlots(base, st, i);
    assert ThreadOk(base, st.numKeys, st.threads[i]);
    if st.threads[i].Storing? {
      assert CountedThreads(st'.threads) == CountedThreads(st.threads) + {i};
    } else {
      assert CountedThreads(st'.threads) == CountedThreads(st.threads);
    }
  }

  /** However m threads interleave, the lock admits one of them at a time, no two get the
      same slot, and the counter grows by exactly one per allocation. */
  lemma {:induction false} RunKeepsInv(base: nat, m: nat, schedule: seq<nat>)
    requires forall k :: 0 <= k < |schedule| ==> schedule[k] < m
    ensures Inv(base, Run(Start(base, m), schedule))
  {
    if |schedule| == 0 {
      assert CountedThreads(Start(base, m).threads) == {};
    } else {
      var front := schedule[..|schedule| - 1];
      RunKeepsInv(base, m, front);
      StepKeepsInv(base, Run(Start(base, m), front), schedule[|schedule| - 1]);
    }
  }

  function SlotOf(threads: seq<Thread>, i: nat): nat {
    if i < |threads| && HasSlot(threads[i]) then threads[i].slot else 0
  }

  /** The slots of the finished allocations are exactly base .. numKeys - 1. */
  lemma {:induction false} SlotsAreDense(base: nat, m: nat, schedule: seq<nat>)
    requires forall k :: 0 <= k < |schedule| ==> schedule[k] < m
    ensures var st := Run(Start(base, m), schedule);
            Image(CountedThreads(st.threads), i => SlotOf(st.threads, i)) == Below(st.numKeys) - Below(base)
  {
    var st := Run(Start(base, m), schedule);
    RunKeepsInv(base, m, schedule);
    var counted := CountedThreads(st.threads);
    var f := i => SlotOf(st.threads, i);
    forall i | i in counted ensures base <= f(i) < st.numKeys {
      assert ThreadOk(base, st.numKeys, st.threads[i]);
    }
    var slots := Image(counted, f);
    ImageSize(counted, f);
    RangeSize(base, st.numKeys);
    SubsetSize(slots, Below(st.numKeys) - Below(base));
  }

  // ----- every thread gets in -----

  predicate CanRun(st: State, schedule: seq<nat>) {
    forall k :: 0 <= k < |schedule| ==> schedule[k] < |st.threads|
  }

  lemma {:induction false} RunJoin(st: State, a: seq<nat>, b: seq<nat>)
    requires CanRun(st, a) && CanRun(st, b)
    ensures CanRun(st, a + b) && Run(st, a + b) == Run(Run(st, a), b)
  {
    if |b| == 0 {
      assert a + b == a;
    } else {
      RunJoin(st, a, b[..|b| - 1]);
      assert (a + b)[..|a + b| - 1] == a + b[..|b| - 1];
    }
  }

  lemma {:induction false} RunOne(st: State, i: nat)
    requires i < |st.threads|
    ensures CanRun(st, [i]) && Run(st, [i]) == Step(st, i)
  {
    assert [i][..0] == [];
    assert Run(st, []) == st;
  }

  lemma {:induction false} RunInv(base: nat, st: State, schedule: seq<nat>)
    requires Inv(base, st) && CanRun(st, schedule)
    ensures Inv(base, Run(st, schedule))
  {
    hide Inv, Step;
    if |schedule| > 0 {
      RunInv(base, st, schedule[..|schedule| - 1]);
      StepKeepsInv(base, Run(st, schedule[..|schedule| - 1]), schedule[|schedule| - 1]);
    }
  }

  /** How many steps a thread needs when the lock is free for it. */
  function StepsLeft(t: Thread): nat {
    match t
    case Spinning => 6
    case Trying => 5
    case Taking => 4
    case Loading(_) => 3
    case Storing(_, _) => 2
    case Unlocking(_) => 1
    case Done(_) => 0
  }

  lemma {:induction false} StepAdvances(base: nat, st: State, i: nat)
    requires Inv(base, st) && i < |st.threads| && !st.threads[i].Done?
    requires st.word == 1 || InLock(st.threads[i])
    ensures
      var st' := Step(st, i);
      && StepsLeft(st'.threads[i]) < StepsLeft(st.threads[i])
      && (st'.word == 1 || InLock(st'.threads[i]))
      && forall j :: 0 <= j < |st.threads| && j != i ==> st'.threads[j] == st.threads[j]
  {
  }

  /** A thread that can have the lock finishes when it alone takes steps, and frees the lock. */
  lemma {:induction false} FinishOne(base: nat, st: State, i: nat) returns (schedule: seq<nat>)
    requires Inv(base, st) && i < |st.threads| && (st.word == 1 || InLock(st.threads[i]))
    ensures CanRun(st, schedule)
    ensures
      var st' := Run(st, schedule);
      && Inv(base, st') && st'.threads[i].Done? && st'.word == 1
      && forall j :: 0 <= j < |st.threads| && j != i ==> st'.threads[j] == st.threads[j]
    decreases StepsLeft(st.threads[i])
  {
    schedule := [];
    assert Run(st, []) == st;
    if !st.threads[i].Done? {
      hide Inv, Step;
      StepAdvances(base, st, i);
      StepKeepsInv(base, st, i);
      var rest := FinishOne(base, Step(st, i), i);
      RunOne(st, i);
      assert CanRun(st, rest);
      RunJoin(st, [i], rest);
      schedule := [i] + rest;
    }
  }

  /** The first k threads finish, one after the other. */
  lemma {:induction false} FinishFirst(base: nat, st: State, k: nat) returns (schedule: seq<nat>)
    requires Inv(base, st) && st.word == 1 && k <= |st.threads|
    ensures CanRun(st, schedule)
    ensures
      var st' := Run(st, schedule);
      Inv(base, st') && st'.word == 1 && forall i :: 0 <= i < k ==> st'.threads[i].Done?
  {
    hide Inv, Step;
    if k == 0 {
      schedule := [];
      assert Run(st, []) == st;
    } else {
      var first := FinishFirst(base, st, k - 1);
      var next := FinishOne(base, Run(st, first), k - 1);
      assert CanRun(st, next);
      RunJoin(st, first, next);
      schedule := first + next;
    }
  }

  /** From every reachable state some schedule lets the holder of the lock and then every
      other thread finish. */
  lemma {:induction false} AllCanFinish(base: nat, st: State) returns (schedule: seq<nat>)
    requires Inv(base, st)
    ensures CanRun(st, schedule) && Inv(base, Run(st, schedule))
    ensures forall i :: 0 <= i < |st.threads| ==> Run(st, schedule).threads[i].Done?
  {
    var first: seq<nat> := [];
    assert Run(st, []) == st;
    if st.word == 0 {
      var h: nat :| h < |st.threads| && InLock(st.threads[h]);
      first := FinishOne(base, st, h);
    } else {
      assert st.word == 1;
    }
    hide Inv, Step;
    var rest := FinishFirst(base, Run(st, first), |st.threads|);
    assert CanRun(st, rest);
    RunJoin(st, first, rest);
    schedule := first + rest;
  }

  /** After any steps of m threads, steps exist after which all m slots are given. */
  lemma {:induction false} AllSlotsCanBeGiven(base: nat, m: nat, schedule: seq<nat>) returns (more: seq<nat>)
    requires CanRun(Start(base, m), schedule)
    ensures CanRun(Start(base, m), schedule + more)
    ensures
      var st := Run(Start(base, m), schedule + more);
      && st.numKeys == base + m
      && (forall i :: 0 <= i < m ==> st.threads[i].Done?)
      && Image(Below(m), i => SlotOf(st.threads, i)) == Below(base + m) - Below(base)
  {
    hide Inv, Step, SlotOf, Below;
    RunKeepsInv(base, m, schedule);
    more := AllCanFinish(base, Run(Start(base, m), schedule));
    assert CanRun(Start(base, m), more);
    RunJoin(Start(base, m), schedule, more);
    SlotsAreDense(base, m, schedule + more);
    AllCounted(base, Run(Start(base, m), schedule + more), m);
  }

  lemma {:induction false} AllCounted(base: nat, st: State, m: nat)
    requires Inv(base, st) && |st.threads| == m && forall i :: 0 <= i < m ==> st.threads[i].Done?
    ensures CountedThreads(st.threads) == Below(m) && st.numKeys == base + m
  {
    assert CountedThreads(st.threads) == Below(m);
    BelowSize(m);
  }

  // ----- counters -----

  /** A thread in atomicIncr (by 1) or atomicDecr (by -1). */
  datatype Adder = Reading(delta: int) | Swapping(delta: int, seen: int) | Finished(delta: int)

  datatype Counter = Counter(value: int, adders: seq<Adder>)

  function AddStep(c: Counter, i: nat): Counter
    requires i < |c.adders|
  {
    match c.adders[i]
    case Reading(delta) => c.(adders := c.adders[i := Swapping(delta, c.value)])
    case Swapping(delta, seen) =>
      if c.value == seen then Counter(seen + delta, c.adders[i := Finished(delta)])
      else c.(adders := c.adders[i := Reading(delta)])
    case Finished(_) => c
  }

  function RunAdders(c: Counter, schedule: seq<nat>): (c': Counter)
    requires forall k :: 0 <= k < |schedule| ==> schedule[k] < |c.adders|
    ensures |c'.adders| == |c.adders|
  {
    if |schedule| == 0 then c
    else AddStep(RunAdders(c, schedule[..|schedule| - 1]), schedule[|schedule| - 1])
  }

  /** What the adders set out to add, of those that have finished between two moments. */
  function AddedSince(before: seq<Adder>, after: seq<Adder>): int
    requires |before| == |after|
  {
    if |before| == 0 then 0
    else
      var n := |before| - 1;
      AddedSince(before[..n], after[..n])
      + if after[n].Finished? && !before[n].Finished? then before[n].delta else 0
  }

  /** What the unfinished adders set out to add. */
  function Outstanding(adders: seq<Adder>): int {
    if |adders| == 0 then 0
    else
      var n := |adders| - 1;
      Outstanding(adders[..n]) + if adders[n].Finished? then 0 else adders[n].delta
  }

  lemma {:induction false} AddedByNone(adders: seq<Adder>)
    ensures AddedSince(adders, adders) == 0
  {
    if |adders| > 0 {
      AddedByNone(adders[..|adders| - 1]);
    }
  }

  lemma {:induction false} AddedStep(before: seq<Adder>, after: seq<Adder>, i: nat, a: Adder)
    requires |before| == |after| && i < |after| && !after[i].Finished?
    ensures AddedSince(before, after[i := a])
            == AddedSince(before, after) + if a.Finished? && !before[i].Finished? then before[i].delta else 0
  {
    var n := |before| - 1;
    if i == n {
      assert after[i := a][..n] == after[..n];
    } else {
      AddedStep(before[..n], after[..n], i, a);
      assert after[i := a][..n] == after[..n][i := a];
    }
  }

  lemma {:induction false} AddedByAll(before: seq<Adder>, after: seq<Adder>)
    requires |before| == |after| && forall i :: 0 <= i < |after| ==> after[i].Finished?
    ensures AddedSince(before, after) == Outstanding(before)
  {
    if |before| > 0 {
      AddedByAll(before[..|before| - 1], after[..|after| - 1]);
    }
  }

  /** Adders keep what they add, and stay finished. */
  ghost predicate KeepTheirDeltas(before: seq<Adder>, after: seq<Adder>) {
    && |before| == |after|
    && forall i :: 0 <= i < |before| ==>
         after[i].delta == before[i].delta && (before[i].Finished? ==> after[i].Finished?)
  }

  /** No increment or decrement is lost or done twice, however the retry loops interleave: the
      value is the first one plus what each adder that finished since set out to add. */
  lemma {:induction false} NoUpdateIsLost(c: Counter, schedule: seq<nat>)
    requires forall k :: 0 <= k < |schedule| ==> schedule[k] < |c.adders|
    ensures KeepTheirDeltas(c.adders, RunAdders(c, schedule).adders)
    ensures RunAdders(c, schedule).value == c.value + AddedSince(c.adders, RunAdders(c, schedule).adders)
  {
    if |schedule| == 0 {
      AddedByNone(c.adders);
    } else {
      var front, i := schedule[..|schedule| - 1], schedule[|schedule| - 1];
      NoUpdateIsLost(c, front);
      var mid := RunAdders(c, front);
      if !mid.adders[i].Finished? {
        AddedStep(c.adders, mid.adders, i, AddStep(mid, i).adders[i]);
      }
    }
  }

  /** When all have finished, the value is the first one plus everything they set out to add. */
  lemma {:induction false} AllFinishedAddsAll(c: Counter, schedule: seq<nat>)
    requires forall k :: 0 <= k < |schedule| ==> schedule[k] < |c.adders|
    requires forall i :: 0 <= i < |c.adders| ==> RunAdders(c, schedule).adders[i].Finished?
    ensures RunAdders(c, schedule).value == c.value + Outstanding(c.adders)
  {
    NoUpdateIsLost(c, schedule);
    AddedByAll(c.adders, RunAdders(c, schedule).adders);
  }

  predicate CanAdd(c: Counter, schedule: seq<nat>) {
    forall k :: 0 <= k < |schedule| ==> schedule[k] < |c.adders|
  }

  lemma {:induction false} AddersJoin(c: Counter, a: seq<nat>, b: seq<nat>)
    requires CanAdd(c, a) && CanAdd(c, b)
    ensures CanAdd(c, a + b) && RunAdders(c, a + b) == RunAdders(RunAdders(c, a), b)
  {
    if |b| == 0 {
      assert a + b == a;
    } else {
      AddersJoin(c, a, b[..|b| - 1]);
      assert (a + b)[..|a + b| - 1] == a + b[..|b| - 1];
    }
  }

  /** An adder that is alone for three steps finishes: a stale swap, a read and a swap. */
  lemma {:induction false} AloneFinishes(c: Counter, i: nat)
    requires i < |c.adders|
    ensures CanAdd(c, [i, i, i])
    ensures
      var c' := RunAdders(c, [i, i, i]);
      && c'.adders[i].Finished?
      && forall j :: 0 <= j < |c.adders| && j != i ==> c'.adders[j] == c.adders[j]
  {
    var c1 := AddStep(c, i);
    var c2 := AddStep(c1, i);
    var c3 := AddStep(c2, i);
    assert [i, i, i][..2] == [i, i] && [i, i][..1] == [i] && [i][..0] == [];
    assert RunAdders(c, []) == c;
    assert RunAdders(c, [i]) == c1;
    assert RunAdders(c, [i, i]) == c2;
    assert RunAdders(c, [i, i, i]) == c3;
  }

  /** From every state some schedule lets all of the first k adders finish. */
  lemma {:induction false} AddersCanFinish(c: Counter, k: nat) returns (schedule: seq<nat>)
    requires k <= |c.adders|
    ensures CanAdd(c, schedule)
    ensures forall i :: 0 <= i < k ==> RunAdders(c, schedule).adders[i].Finished?
  {
    hide AddStep;
    schedule := [];
    if k > 0 {
      var first := AddersCanFinish(c, k - 1);
      var mid := RunAdders(c, first);
      AloneFinishes(mid, k - 1);
      var last: seq<nat> := [k - 1, k - 1, k - 1];
      assert CanAdd(c, last);
      AddersJoin(c, first, last);
      schedule := first + last;
    }
  }

  /** So every counter can be brought to its first value plus all that is to be added. */
  lemma {:induction false} EverythingCanBeAdded(c: Counter) returns (schedule: seq<nat>)
    ensures CanAdd(c, schedule) && RunAdders(c, schedule).value == c.value + Outstanding(c.adders)
    ensures forall i :: 0 <= i < |c.adders| ==> RunAdders(c, schedule).adders[i].Finished?
  {
    hide AddStep;
    schedule := AddersCanFinish(c, |c.adders|);
    AllFinishedAddsAll(c, schedule);
  }
}
