/**
 The round-robin scheduler of kernel/sched.c: its thread table, what one call of schedule does,
 and how long a ready thread can wait.  Threads are table entries; the current thread is the
 index of one.  Stacks and the switch itself are not modelled.
 */
module Scheduler {
  const MAX_THREADS: nat := 64
  const NAME_MAX: nat := 31
  const TWO32: nat := 0x1_0000_0000

  datatype State = Ready | Running | Sleeping | Zombie
  datatype Thread = Thread(id: nat, state: State, name: string, esp: nat)
  datatype Slot = Free | Used(thread: Thread)

  // The table, the current thread and the next identifier.
  datatype Sched = Sched(threads: seq<Slot>, current: nat, nextId: nat)

  predicate InState(s: Sched, i: int, st: State) {
    0 <= i < |s.threads| && s.threads[i].Used? && s.threads[i].thread.state == st
  }

  // Only the current thread is ever running; it is a zombie between its exit and the next switch.
  predicate Valid(s: Sched) {
    && |s.threads| == MAX_THREADS && s.current < MAX_THREADS && s.nextId < TWO32
    && (InState(s, s.current, Running) || InState(s, s.current, Zombie))
    && forall i :: 0 <= i < MAX_THREADS && i != s.current ==> !Runs(s.threads[i])
  }

  predicate Runs(slot: Slot) {
    slot.Used? && slot.thread.state == Running
  }

  // ---- Choosing ----

  // The slot k places after the current one, going round.
  function Around(s: Sched, k: nat): nat
    requires s.current < MAX_THREADS && k <= MAX_THREADS
  {
    if s.current + k < MAX_THREADS then s.current + k else s.current + k - MAX_THREADS
  }

  predicate Eligible(s: Sched, i: nat) {
    InState(s, i, Ready) || (InState(s, i, Running) && i != s.current)
  }

  // How far away the next eligible slot is, looking from distance k on; 65 when there is none.
  function Nearest(s: Sched, k: nat): (d: nat)
    requires Valid(s) && 1 <= k <= MAX_THREADS + 1
    ensures k <= d <= MAX_THREADS + 1
    ensures d <= MAX_THREADS ==> Eligible(s, Around(s, d))
    ensures forall j :: k <= j < d && j <= MAX_THREADS ==> !Eligible(s, Around(s, j))
    decreases MAX_THREADS + 1 - k
  {
    if k > MAX_THREADS || Eligible(s, Around(s, k)) then k else Nearest(s, k + 1)
  }

  function SetState(s: Sched, i: nat, st: State): Sched
    requires i < |s.threads| && s.threads[i].Used?
  {
    s.(threads := s.threads[i := Used(s.threads[i].thread.(state := st))])
  }

  // ---- What the calls do ----

  // The outgoing thread's stack pointer is kept in its entry.
  function Saved(s: Sched, regs: nat): Sched
    requires Valid(s)
  {
    s.(threads := s.threads[s.current := Used(s.threads[s.current].thread.(esp := regs))])
  }

  function Scheduled(s: Sched, regs: nat): (r: Sched)
    requires Valid(s)
  {
    var saved := Saved(s, regs);
    var d := Nearest(s, 1);
    if d > MAX_THREADS then saved
    else
      var next := Around(s, d);
      var resting := if InState(saved, s.current, Running) then SetState(saved, s.current, Ready) else saved;
      SetState(resting, next, Running).(current := next)
  }

  function FirstFree(threads: seq<Slot>): (i: nat)
    ensures i <= |threads| && (i < |threads| ==> threads[i].Free?) && forall j :: 0 <= j < i ==> threads[j].Used?
  {
    if threads == [] || threads[0].Free? then 0 else 1 + FirstFree(threads[1..])
  }

  function Cut(name: string): string {
    if |name| <= NAME_MAX then name else name[..NAME_MAX]
  }

  // A full table leaves everything as it is.
  function Created(s: Sched, name: string, esp: nat): Sched {
    var i := FirstFree(s.threads);
    if i == |s.threads| then s
    else Sched(s.threads[i := Used(Thread(s.nextId, Ready, Cut(name), esp))], s.current, (s.nextId + 1) % TWO32)
  }

  function Exited(s: Sched): Sched
    requires Valid(s)
  {
    SetState(s, s.current, Zombie)
  }

  // ---- The table as an object ----

  class Table {
    const threads: array<Slot>
    var current: nat
    var nextId: nat

    ghost function View(): Sched
      reads this, threads
    {
      Sched(threads[..], current, nextId)
    }

    // sched_init
    constructor ()
      ensures Valid(View()) && fresh(threads)
      ensures View() == Start()
    {
      threads := new Slot[MAX_THREADS](i => if i == 0 then Used(Thread(0, Running, "kernel", 0)) else Free);
      current, nextId := 0, 1;
    }

    // thread_create; the index of the new thread, or -1 when the table is full.
    method Create(name: string, esp: nat) returns (idx: int)
      requires Valid(View())
      modifies threads, this`nextId
      ensures Valid(View()) && View() == Created(old(View()), name, esp)
      ensures idx == -1 <==> forall i :: 0 <= i < MAX_THREADS ==> old(threads[i]).Used?
      ensures idx != -1 ==>
        && 0 <= idx < MAX_THREADS && old(threads[idx]).Free? && (forall i :: 0 <= i < idx ==> old(threads[i]).Used?)
        && threads[..] == old(threads[..])[idx := Used(Thread(old(nextId), Ready, Cut(name), esp))]
    {
      CreateKeepsValid(View(), name, esp);
      idx := -1;
      var i := 0;
      while i < MAX_THREADS && idx == -1
        invariant 0 <= i <= MAX_THREADS && View() == old(View())
        invariant if idx == -1 then forall j :: 0 <= j < i ==> threads[j].Used? else idx == FirstFree(threads[..]) < MAX_THREADS
      {
        if threads[i].Free? {
          FirstFreeIs(threads[..], i);
          idx := i;
        }
        i := i + 1;
      }
      if idx == -1 {
        FirstFreeIs(threads[..], MAX_THREADS);
        return;
      }
      threads[idx] := Used(Thread(nextId, Ready, Cut(name), esp));
      nextId := (nextId + 1) % TWO32;
    }

    // thread_exit, up to the interrupt that calls the scheduler.
    method Exit()
      requires Valid(View())
      modifies threads
      ensures Valid(View()) && View() == Exited(old(View()))
    {
      threads[current] := Used(threads[current].thread.(state := Zombie));
    }

    // schedule
    method Schedule(regs: nat)
      requires Valid(View())
      modifies threads, this`current
      ensures Valid(View()) && View() == Scheduled(old(View()), regs)
    {
      ghost var s := View();
      ScheduleKeepsValid(s, regs);
      threads[current] := Used(threads[current].thread.(esp := regs));
      assert View() == Saved(s, regs);
      SavedSame(s, regs);
      hide Valid, Nearest;
      var next := FindNext(s);
      if next != -1 {
        if threads[current].thread.state == Running {
          threads[current] := Used(threads[current].thread.(state := Ready));
        }
        current := next;
        threads[current] := Used(threads[current].thread.(state := Running));
      }
    }

    // The two-way test of every slot after the current one, going round.
    method FindNext(ghost s: Sched) returns (next: int)
      requires Valid(s) && View().current == s.current && |View().threads| == MAX_THREADS
      requires forall i :: 0 <= i < MAX_THREADS ==> SameState(s.threads[i], threads[i])
      ensures next == if Nearest(s, 1) > MAX_THREADS then -1 else Around(s, Nearest(s, 1))
      ensures next != -1 ==> threads[next].Used?
    {
      assert |s.threads| == MAX_THREADS && s.current < MAX_THREADS;
      hide Valid, Eligible, SameState, Around, Nearest;
      var i := 1;
      while i <= MAX_THREADS
        invariant 1 <= i <= MAX_THREADS + 1 && Nearest(s, 1) == Nearest(s, i)
      {
        NearestStep(s, i);
        var idx := SlotAround(i, s);
        SameChoice(s, idx, threads[idx]);
        if threads[idx].Used? && threads[idx].thread.state == Ready { return idx; }
        if threads[idx].Used? && threads[idx].thread.state == Running && idx != current { return idx; }
        i := i + 1;
      }
      NearestNone(s);
      return -1;
    }

    method SlotAround(i: nat, ghost s: Sched) returns (idx: nat)
      requires s.current == current < MAX_THREADS && i <= MAX_THREADS
      ensures idx == Around(s, i) < MAX_THREADS
    {
      AroundIs(s, i);
      idx := (current + i) % MAX_THREADS;
    }
  }

  lemma NearestStep(s: Sched, k: nat)
    requires Valid(s) && 1 <= k <= MAX_THREADS
    ensures Nearest(s, k) == if Eligible(s, Around(s, k)) then k else Nearest(s, k + 1)
  {
  }

  lemma NearestNone(s: Sched)
    requires Valid(s)
    ensures Nearest(s, MAX_THREADS + 1) == MAX_THREADS + 1
  {
  }

  predicate SameState(a: Slot, b: Slot) {
    a.Used? == b.Used? && (a.Used? ==> a.thread.state == b.thread.state)
  }

  lemma AroundIs(s: Sched, k: nat)
    requires s.current < MAX_THREADS && k <= MAX_THREADS
    ensures Around(s, k) == (s.current + k) % MAX_THREADS < MAX_THREADS
  {
  }

  lemma SameChoice(s: Sched, i: nat, slot: Slot)
    requires i < |s.threads| && SameState(s.threads[i], slot)
    ensures Eligible(s, i) <==>
      slot.Used? && (slot.thread.state == Ready || (slot.thread.state == Running && i != s.current))
  {
  }

  lemma SavedSame(s: Sched, regs: nat)
    requires Valid(s)
    ensures var t := Saved(s, regs);
      |t.threads| == MAX_THREADS && t.current == s.current && t.threads[s.current].Used?
      && forall i :: 0 <= i < MAX_THREADS ==> SameState(s.threads[i], t.threads[i])
  {
  }

  lemma {:induction false} FirstFreeIs(threads: seq<Slot>, i: nat)
    requires i <= |threads| && (forall j :: 0 <= j < i ==> threads[j].Used?) && (i < |threads| ==> threads[i].Free?)
    ensures FirstFree(threads) == i
    decreases i
  {
    if i > 0 { FirstFreeIs(threads[1..], i - 1); }
  }

  // ---- Invariants ----

  lemma CreateKeepsValid(s: Sched, name: string, esp: nat)
    requires Valid(s)
    ensures Valid(Created(s, name, esp))
  {
  }

  lemma ScheduleKeepsValid(s: Sched, regs: nat)
    requires Valid(s)
    ensures Valid(Scheduled(s, regs))
  {
  }

  // ---- Runs ----

  datatype Call = CreateCall(name: string, esp: nat) | ExitCall | ScheduleCall(regs: nat)

  function Step(s: Sched, c: Call): (r: Sched)
    requires Valid(s)
    ensures Valid(r)
  {
    match c
    case CreateCall(name, esp) =>
      CreateKeepsValid(s, name, esp);
      Created(s, name, esp)
    case ExitCall => Exited(s)
    case ScheduleCall(regs) =>
      ScheduleKeepsValid(s, regs);
      Scheduled(s, regs)
  }

  function Run(s: Sched, calls: seq<Call>): (r: Sched)
    requires Valid(s)
    ensures Valid(r)
    decreases |calls|
  {
    if calls == [] then s else Run(Step(s, calls[0]), calls[1..])
  }

  function Schedules(calls: seq<Call>): nat {
    if calls == [] then 0 else (if calls[0].ScheduleCall? then 1 else 0) + Schedules(calls[1..])
  }

  // A zombie stays one, and once another thread is current it never is again.
  lemma {:induction false} ZombieForever(s: Sched, calls: seq<Call>, i: nat)
    requires Valid(s) && InState(s, i, Zombie)
    ensures InState(Run(s, calls), i, Zombie)
    ensures s.current != i ==> Run(s, calls).current != i
    decreases |calls|
  {
    if calls != [] {
      ZombieStep(s, calls[0], i);
      ZombieForever(Step(s, calls[0]), calls[1..], i);
    }
  }

  lemma ZombieStep(s: Sched, c: Call, i: nat)
    requires Valid(s) && InState(s, i, Zombie)
    ensures InState(Step(s, c), i, Zombie) && (s.current != i ==> Step(s, c).current != i)
  {
  }

  // How many places after the current thread slot r is.
  function Distance(s: Sched, r: nat): (d: nat)
    requires s.current < MAX_THREADS && r < MAX_THREADS
    ensures d < MAX_THREADS && Around(s, d) == r
  {
    if r >= s.current then r - s.current else r + MAX_THREADS - s.current
  }

  // One call: a ready thread that is not made current is still ready, no further away, and nearer
  // after every schedule.
  lemma WaitStep(s: Sched, c: Call, r: nat)
    requires Valid(s) && r < MAX_THREADS && InState(s, r, Ready)
    ensures var t := Step(s, c);
      t.current == r ||
      (InState(t, r, Ready) && Distance(t, r) <= Distance(s, r) - (if c.ScheduleCall? then 1 else 0))
  {
    match c {
      case CreateCall(_, _) =>
      case ExitCall =>
      case ScheduleCall(regs) => ScheduleNears(s, regs, r);
    }
  }

  lemma ScheduleNears(s: Sched, regs: nat, r: nat)
    requires Valid(s) && r < MAX_THREADS && InState(s, r, Ready)
    ensures Scheduled(s, regs).current < MAX_THREADS
    ensures var t := Scheduled(s, regs);
      (t.current == r || (InState(t, r, Ready) && Distance(t, r) < Distance(s, r)))
  {
    var d := Nearest(s, 1);
    assert r != s.current && Eligible(s, Around(s, Distance(s, r)));
    assert 1 <= d <= Distance(s, r);
    hide Nearest, Eligible;
  }

  // Bounded waiting: whatever threads are created or exit meanwhile, a ready thread becomes current
  // within as many schedule calls as it is places away.
  lemma {:induction false} BoundedWait(s: Sched, calls: seq<Call>, r: nat)
    requires Valid(s) && r < MAX_THREADS && InState(s, r, Ready) && Schedules(calls) >= Distance(s, r)
    ensures exists k :: 0 <= k <= |calls| && Run(s, calls[..k]).current == r && Schedules(calls[..k]) <= Distance(s, r)
    decreases |calls|
  {
    assert r != s.current && Distance(s, r) > 0;
    var t := Step(s, calls[0]);
    WaitStep(s, calls[0], r);
    if t.current == r {
      var first := calls[..1];
      assert first[1..] == [] && first[0] == calls[0];
      assert Run(s, first) == Run(t, first[1..]) && Schedules(first) <= 1 + Schedules(first[1..]);
    } else {
      BoundedWait(t, calls[1..], r);
      var k :| 0 <= k <= |calls[1..]| && Run(t, calls[1..][..k]).current == r && Schedules(calls[1..][..k]) <= Distance(t, r);
      var first := calls[..k + 1];
      assert first[1..] == calls[1..][..k] && first[0] == calls[0];
      assert Run(s, first) == Run(t, first[1..]);
      assert Schedules(first) <= Distance(s, r);
    }
  }

  // Every state of every run: the current thread alone is running.
  lemma OnlyCurrentRuns(s: Sched, calls: seq<Call>, i: nat)
    requires Valid(s) && InState(Run(s, calls), i, Running)
    ensures i == Run(s, calls).current
  {
  }

  // ---- What schedule leaves alone, and what becomes of a preempted thread ----

  predicate Lives(s: Sched, i: int) {
    InState(s, i, Ready) || InState(s, i, Running)
  }

  // One call of schedule, entry by entry: the outgoing thread keeps its identity, has its stack
  // pointer saved and is ready again if it was running and another one takes over; the incoming one
  // is running; every other entry is untouched.
  lemma ScheduleFrame(s: Sched, regs: nat)
    requires Valid(s)
    ensures var t := Scheduled(s, regs);
      && |t.threads| == MAX_THREADS && t.current < MAX_THREADS && t.nextId == s.nextId
      && (forall i :: 0 <= i < MAX_THREADS && i != s.current && i != t.current ==> t.threads[i] == s.threads[i])
      && (t.current != s.current ==>
            && Eligible(s, t.current)
            && t.threads[t.current] == Used(s.threads[t.current].thread.(state := Running))
            && t.threads[s.current] == Used(s.threads[s.current].thread.(
                 esp := regs, state := if InState(s, s.current, Running) then Ready else s.threads[s.current].thread.state)))
      && (t.current == s.current ==>
            && (forall i :: 0 <= i < MAX_THREADS ==> !Eligible(s, i))
            && t.threads[s.current] == Used(s.threads[s.current].thread.(esp := regs)))
  {
    var d := Nearest(s, 1);
    CurrentNotEligible(s);
    if d > MAX_THREADS {
      NoneEligible(s);
      hide Eligible, Nearest;
    } else {
      assert Eligible(s, Around(s, d)) && Around(s, d) != s.current;
      SwitchFrame(s, regs, Around(s, d));
      hide Eligible, Nearest, Around;
    }
  }

  lemma SwitchFrame(s: Sched, regs: nat, next: nat)
    requires Valid(s) && next < MAX_THREADS && next != s.current && s.threads[next].Used?
    ensures var saved := Saved(s, regs);
      var resting := if InState(saved, s.current, Running) then SetState(saved, s.current, Ready) else saved;
      var t := SetState(resting, next, Running).(current := next);
      && (forall i :: 0 <= i < MAX_THREADS && i != s.current && i != next ==> t.threads[i] == s.threads[i])
      && t.threads[next] == Used(s.threads[next].thread.(state := Running))
      && t.threads[s.current] == Used(s.threads[s.current].thread.(
           esp := regs, state := if InState(s, s.current, Running) then Ready else s.threads[s.current].thread.state))
  {
  }

  lemma CurrentNotEligible(s: Sched)
    requires Valid(s)
    ensures !Eligible(s, s.current)
  {
  }

  lemma NoneEligible(s: Sched)
    requires Valid(s) && Nearest(s, 1) > MAX_THREADS
    ensures forall i :: 0 <= i < MAX_THREADS ==> !Eligible(s, i)
  {
    CurrentNotEligible(s);
    hide Valid, Eligible;
    forall i | 0 <= i < MAX_THREADS ensures !Eligible(s, i) {
      var d := DistanceTo(s, i);
      assert i != s.current ==> !Eligible(s, Around(s, d));
    }
  }

  function DistanceTo(s: Sched, r: nat): (d: nat)
    requires s.current < MAX_THREADS && r < MAX_THREADS
    ensures d < MAX_THREADS && Around(s, d) == r && (r != s.current ==> d >= 1)
  {
    Distance(s, r)
  }

  // A call other than the thread's own exit leaves a thread that is ready or running so, under its
  // name and identifier.
  lemma LivesStep(s: Sched, c: Call, i: nat)
    requires Valid(s) && i < MAX_THREADS && Lives(s, i) && !(c.ExitCall? && s.current == i)
    ensures Lives(Step(s, c), i)
    ensures var x, y := s.threads[i].thread, Step(s, c).threads[i].thread; y.id == x.id && y.name == x.name
  {
    match c {
      case CreateCall(_, _) =>
      case ExitCall =>
      case ScheduleCall(regs) =>
        ScheduleFrame(s, regs);
        hide Scheduled, Nearest;
    }
  }

  // The thread in slot i does not call exit in this run.
  predicate NeverExits(s: Sched, calls: seq<Call>, i: nat)
    requires Valid(s)
    decreases |calls|
  {
    calls == [] || (!(calls[0].ExitCall? && s.current == i) && NeverExits(Step(s, calls[0]), calls[1..], i))
  }

  lemma {:induction false} LivesOn(s: Sched, calls: seq<Call>, i: nat)
    requires Valid(s) && i < MAX_THREADS && Lives(s, i) && NeverExits(s, calls, i)
    ensures var e := Run(s, calls);
      Lives(e, i) && e.threads[i].thread.id == s.threads[i].thread.id && e.threads[i].thread.name == s.threads[i].thread.name
    decreases |calls|
  {
    if calls != [] {
      LivesStep(s, calls[0], i);
      hide Step, Valid, Lives;
      LivesOn(Step(s, calls[0]), calls[1..], i);
    }
  }

  // A living thread is current again within 64 schedule calls, wherever it is in the table and
  // whatever else happens, as long as it does not exit.
  lemma {:induction false} RunsAgain(s: Sched, calls: seq<Call>, i: nat)
    requires Valid(s) && i < MAX_THREADS && Lives(s, i) && NeverExits(s, calls, i) && Schedules(calls) >= MAX_THREADS
    ensures exists k :: 0 < k <= |calls| && Run(s, calls[..k]).current == i && Schedules(calls[..k]) <= MAX_THREADS
    decreases |calls|
  {
    var t := Step(s, calls[0]);
    LivesStep(s, calls[0], i);
    FirstCall(s, calls, 0);
    if t.current == i {
      assert Run(s, calls[..1]).current == i && Schedules(calls[..1]) <= 1;
    } else {
      assert InState(t, i, Ready) by { NotCurrent(t, i); }
      assert Schedules(calls[1..]) >= Distance(t, i) by { assert Schedules(calls) <= 1 + Schedules(calls[1..]); }
      BoundedWait(t, calls[1..], i);
      var k :| 0 <= k <= |calls[1..]| && Run(t, calls[1..][..k]).current == i && Schedules(calls[1..][..k]) <= Distance(t, i);
      FirstCall(s, calls, k);
      assert Run(s, calls[..k + 1]).current == i && Schedules(calls[..k + 1]) <= MAX_THREADS;
    }
  }

  lemma NotCurrent(s: Sched, i: nat)
    requires Valid(s) && i < MAX_THREADS && Lives(s, i) && s.current != i
    ensures InState(s, i, Ready)
  {
    assert !Runs(s.threads[i]);
  }

  lemma FirstCall(s: Sched, calls: seq<Call>, k: nat)
    requires Valid(s) && k < |calls|
    ensures Run(s, calls[..k + 1]) == Run(Step(s, calls[0]), calls[1..][..k])
    ensures Schedules(calls[..k + 1]) <= 1 + Schedules(calls[1..][..k]) && Schedules([]) == 0
    ensures Run(Step(s, calls[0]), []) == Step(s, calls[0])
    ensures k == 0 ==> calls[1..][..k] == []
  {
    var first := calls[..k + 1];
    assert first[0] == calls[0] && first[1..] == calls[1..][..k];
  }

  // ---- Runs from sched_init ----

  function Start(): (s: Sched)
    ensures Valid(s)
  {
    Sched(seq(MAX_THREADS, i => if i == 0 then Used(Thread(0, Running, "kernel", 0)) else Free), 0, 1)
  }

  // No thread is ever sleeping, and one that is not a zombie is ready or running.
  lemma {:induction false} NoneSleeps(s: Sched, calls: seq<Call>, i: nat)
    requires Valid(s) && forall j :: 0 <= j < MAX_THREADS ==> !InState(s, j, Sleeping)
    ensures !InState(Run(s, calls), i, Sleeping)
    decreases |calls|
  {
    if calls != [] {
      forall j | 0 <= j < MAX_THREADS ensures !InState(Step(s, calls[0]), j, Sleeping) { AwakeStep(s, calls[0], j); }
      hide Step, Valid;
      NoneSleeps(Step(s, calls[0]), calls[1..], i);
    }
  }

  lemma AwakeStep(s: Sched, c: Call, i: nat)
    requires Valid(s) && i < MAX_THREADS && !InState(s, i, Sleeping)
    ensures !InState(Step(s, c), i, Sleeping)
  {
    match c {
      case CreateCall(_, _) =>
      case ExitCall =>
      case ScheduleCall(regs) =>
        ScheduleFrame(s, regs);
        hide Scheduled, Nearest;
    }
  }

  lemma StartAwake(calls: seq<Call>, i: nat)
    ensures !InState(Run(Start(), calls), i, Sleeping)
  {
    NoneSleeps(Start(), calls, i);
  }

  // The kernel thread, having created another one and been preempted by it, is back after the second
  // schedule call, and the other one is ready.
  lemma KernelComesBack(name: string, esp: nat, regs: nat, regs': nat)
    ensures var s := Run(Start(), [CreateCall(name, esp), ScheduleCall(regs), ScheduleCall(regs')]);
      s.current == 0 && InState(s, 0, Running) && InState(s, 1, Ready) && s.threads[0].thread.esp == regs
  {
    hide Nearest, Scheduled;
    var s0 := Start();
    FirstFreeIs(s0.threads, 1);
    var s1 := Step(s0, CreateCall(name, esp));
    assert s1.threads == s0.threads[1 := Used(Thread(1, Ready, Cut(name), esp))] && s1.current == 0;
    var s2 := Step(s1, ScheduleCall(regs));
    ScheduleFrame(s1, regs);
    assert Eligible(s1, 1);
    assert s2.current == 1 && InState(s2, 0, Ready);
    var s3 := Step(s2, ScheduleCall(regs'));
    ScheduleFrame(s2, regs');
    assert Eligible(s2, 0);
    assert s3.current == 0;
    ThreeCalls(s0, CreateCall(name, esp), ScheduleCall(regs), ScheduleCall(regs'));
  }

  lemma ThreeCalls(s: Sched, a: Call, b: Call, c: Call)
    requires Valid(s)
    ensures Run(s, [a, b, c]) == Step(Step(Step(s, a), b), c)
  {
    hide Step, Valid;
    assert [a, b, c][1..] == [b, c] && [b, c][1..] == [c] && [c][1..] == [];
    assert Run(Step(Step(s, a), b), [c]) == Run(Step(Step(Step(s, a), b), c), []);
  }
}
