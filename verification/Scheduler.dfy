/**
 The per-core bitmap scheduler: sixteen tasks, a ready bitmap, a watchdog window and stack canaries.
 Bitmaps are sequences of sixteen booleans, bit 0 first.
 */
module Schedulers {
  import opened Words

  const MAX_TASKS: nat := 16

  function NoBits(): seq<bool> { seq(16, _ => false) }

  type Bits16 = b: seq<bool> | |b| == 16 witness NoBits()

  datatype Tcb = Tcb(entryPoint: u64, stackBase: u64, stackSize: u64, rsp: u64, priority: u8, stackCanary: u64)

  function EmptyTcb(): Tcb { Tcb(0, 0, 0, 0, 15, 0) }

  function EmptyTasks(): seq<Tcb> { seq(16, _ => EmptyTcb()) }

  type Tasks = t: seq<Tcb> | |t| == 16 witness EmptyTasks()

  datatype SchedulerError = TaskFault

  datatype Outcome = Done | Failed(error: SchedulerError)

  /** The words at the stack bases; addresses not listed hold zero. */
  type Memory = map<u64, u64>

  function Read(memory: Memory, address: u64): u64 { if address in memory then memory[address] else 0 }

  datatype State = State(tasks: Tasks, ready: Bits16, current: nat, watchdog: Bits16, critical: Bits16)

  function New(): State { State(EmptyTasks(), NoBits(), 15, NoBits(), NoBits()) }

  // ---- Stacks ----

  /** The stack fits the address space, is aligned, and `rsp` lies in it above the canary word. */
  predicate ValidStackPointer(tcb: Tcb, rsp: u64) {
    && tcb.stackBase + tcb.stackSize < WORDS
    && tcb.stackBase + 8 < WORDS
    && tcb.stackBase != 0 && tcb.stackBase % 8 == 0 && tcb.stackSize >= 8
    && tcb.stackBase + 8 <= rsp <= tcb.stackBase + tcb.stackSize
  }

  predicate CanaryIntact(memory: Memory, tcb: Tcb) { Read(memory, tcb.stackBase) == tcb.stackCanary }

  predicate Registered(s: State, i: nat)
    requires i < MAX_TASKS
  {
    s.tasks[i].stackBase != 0
  }

  // ---- Calls ----

  predicate Registrable(s: State, tcb: Tcb) {
    && tcb.entryPoint != 0 && tcb.priority < 16 && ValidStackPointer(tcb, tcb.rsp)
    && s.tasks[tcb.priority].stackBase == 0
  }

  function CreateTask(s: State, memory: Memory, tcb: Tcb, canary: u64): (State, Memory, Outcome) {
    if !Registrable(s, tcb) then (s, memory, Failed(TaskFault))
    else
      (s.(tasks := s.tasks[tcb.priority := tcb.(stackCanary := canary)], ready := s.ready[tcb.priority := true]),
       memory[tcb.stackBase := canary], Done)
  }

  function SetReady(s: State, priority: u8, on: bool): State {
    if priority < 16 then s.(ready := s.ready[priority := on]) else s
  }

  function CheckIn(s: State, priority: u8): State {
    if priority < 16 && Registered(s, priority) then s.(watchdog := s.watchdog[priority := true]) else s
  }

  function And(a: Bits16, b: Bits16): Bits16 { seq(16, i requires 0 <= i < 16 => a[i] && b[i]) }

  function RegisteredMask(tasks: Tasks): Bits16 { seq(16, i requires 0 <= i < 16 => tasks[i].stackBase != 0) }

  function SetCriticalMask(s: State, mask: Bits16): State {
    var critical := And(mask, RegisteredMask(s.tasks));
    s.(critical := critical, watchdog := And(s.watchdog, critical))
  }

  /** `trailing_zeros` from bit `from` up; sixteen when no bit is set. */
  function TrailingZeros(bits: Bits16, from: nat): nat
    requires from <= 16
    decreases 16 - from
  {
    if from == 16 || bits[from] then from else TrailingZeros(bits, from + 1)
  }

  function Selected(ready: Bits16): nat {
    var next := TrailingZeros(ready, 0);
    if next >= MAX_TASKS then 15 else next
  }

  /** The highest-priority ready task, or the idle slot when nothing is ready. */
  ghost predicate Chosen(ready: Bits16, next: nat) {
    && next < MAX_TASKS
    && (if exists i :: 0 <= i < 16 && ready[i] then ready[next] && forall i :: 0 <= i < next ==> !ready[i]
        else next == 15)
  }

  lemma {:induction false} TrailingZerosIsLowest(bits: Bits16, from: nat)
    requires from <= 16 && forall i :: 0 <= i < from ==> !bits[i]
    ensures var z := TrailingZeros(bits, from);
            from <= z <= 16 && (forall i :: 0 <= i < z ==> !bits[i]) && (z < 16 ==> bits[z])
    decreases 16 - from
  {
    if from < 16 && !bits[from] {
      TrailingZerosIsLowest(bits, from + 1);
    }
  }

  lemma SelectedIsChosen(ready: Bits16, next: nat)
    ensures Chosen(ready, next) <==> next == Selected(ready)
  {
    TrailingZerosIsLowest(ready, 0);
  }

  // ---- Tick ----

  datatype Ticked = Fault | Dispatch(next: nat, pet: bool)

  /** A tick with a context to save: the current task is registered and the host passed a pointer. */
  predicate Saves(s: State, rsp: u64) { s.current < MAX_TASKS && rsp != 0 && Registered(s, s.current) }

  predicate SaveFaults(s: State, memory: Memory, rsp: u64) {
    Saves(s, rsp) && !(ValidStackPointer(s.tasks[s.current], rsp) && CanaryIntact(memory, s.tasks[s.current]))
  }

  function Saved(s: State, rsp: u64): State {
    if Saves(s, rsp) then s.(tasks := s.tasks[s.current := s.tasks[s.current].(rsp := rsp)]) else s
  }

  predicate Runnable(s: State, memory: Memory, next: nat)
    requires next < MAX_TASKS
  {
    if Registered(s, next) then
      ValidStackPointer(s.tasks[next], s.tasks[next].rsp) && CanaryIntact(memory, s.tasks[next])
    else
      next == 15 && !s.ready[next]
  }

  /** Every critical task has checked in, and there is at least one. */
  predicate Quorum(s: State) { s.critical != NoBits() && And(s.watchdog, s.critical) == s.critical }

  function Tick(s: State, memory: Memory, rsp: u64): (State, Ticked) {
    if s.current >= MAX_TASKS || SaveFaults(s, memory, rsp) then (s, Fault)
    else
      var saved := Saved(s, rsp);
      var next := Selected(s.ready);
      if next >= MAX_TASKS || !Runnable(saved, memory, next) then (saved, Fault)
      else
        (saved.(watchdog := if Quorum(s) then NoBits() else s.watchdog, current := next), Dispatch(next, Quorum(s)))
  }

  /** The stack pointer a tick returns. */
  function Returned(s: State, ticked: Ticked): u64 {
    if ticked.Dispatch? && ticked.next < MAX_TASKS then s.tasks[ticked.next].rsp else 0
  }

  // ---- The object ----

  class PerCoreScheduler {
    const tasks: array<Tcb>
    var readyBitmap: Bits16
    var currentTask: nat
    var watchdogMatrix: Bits16
    var criticalTaskMask: Bits16

    ghost predicate Valid()
      reads this
    {
      tasks.Length == MAX_TASKS
    }

    ghost function View(): State
      requires Valid()
      reads this, tasks
    {
      State(tasks[..], readyBitmap, currentTask, watchdogMatrix, criticalTaskMask)
    }

    constructor ()
      ensures Valid() && fresh(tasks) && View() == New()
    {
      tasks := new Tcb[16](_ => EmptyTcb());
      readyBitmap, currentTask := NoBits(), 15;
      watchdogMatrix, criticalTaskMask := NoBits(), NoBits();
    }

    method RegisterTask(tcb: Tcb, canaryValue: u64, memory: Memory) returns (r: Outcome, memory': Memory)
      requires Valid()
      modifies this, tasks
      ensures Valid() && (View(), memory', r) == CreateTask(old(View()), memory, tcb, canaryValue)
    {
      var validStack := ValidStackPointer(tcb, tcb.rsp);
      if tcb.entryPoint == 0 || tcb.priority >= 16 || !validStack || tasks[tcb.priority].stackBase != 0 {
        return Failed(TaskFault), memory;
      }
      memory' := memory[tcb.stackBase := canaryValue];
      tasks[tcb.priority] := tcb.(stackCanary := canaryValue);
      readyBitmap := readyBitmap[tcb.priority := true];
      r := Done;
    }

    method SetReadyBit(priority: u8, on: bool)
      requires Valid()
      modifies this
      ensures Valid() && View() == SetReady(old(View()), priority, on)
    {
      if priority < 16 {
        readyBitmap := readyBitmap[priority := on];
      }
    }

    method TaskCheckIn(priority: u8)
      requires Valid()
      modifies this
      ensures Valid() && View() == CheckIn(old(View()), priority)
    {
      if priority < 16 && tasks[priority].stackBase != 0 {
        watchdogMatrix := watchdogMatrix[priority := true];
      }
    }

    method SetCriticalTaskMask(mask: Bits16)
      requires Valid()
      modifies this
      ensures Valid() && View() == SetCriticalMask(old(View()), mask)
    {
      var registered := NoBits();
      for i := 0 to 16
        invariant |registered| == 16 && View() == old(View())
        invariant forall k :: 0 <= k < 16 ==> registered[k] == (k < i && tasks[k].stackBase != 0)
      {
        if tasks[i].stackBase != 0 {
          registered := registered[i := true];
        }
      }
      assert registered == RegisteredMask(tasks[..]);
      criticalTaskMask := And(mask, registered);
      watchdogMatrix := And(watchdogMatrix, criticalTaskMask);
    }

    method ScheduleTick(currentRsp: u64, memory: Memory) returns (rsp: u64, pet: bool)
      requires Valid()
      modifies this, tasks
      ensures Valid()
      ensures var (s, ticked) := Tick(old(View()), memory, currentRsp);
              View() == s && rsp == Returned(s, ticked) && pet == (ticked.Dispatch? && ticked.pet)
    {
      rsp, pet := 0, false;
      if currentTask >= MAX_TASKS {
        return;
      }
      if currentRsp != 0 && tasks[currentTask].stackBase != 0 {
        if !ValidStackPointer(tasks[currentTask], currentRsp) || !CanaryIntact(memory, tasks[currentTask]) {
          return;
        }
        tasks[currentTask] := tasks[currentTask].(rsp := currentRsp);
      }
      assert View() == Saved(old(View()), currentRsp);
      TrailingZerosIsLowest(readyBitmap, 0);
      var next := TrailingZeros(readyBitmap, 0);
      if next >= MAX_TASKS {
        next := 15;
      }
      if tasks[next].stackBase != 0 {
        if !ValidStackPointer(tasks[next], tasks[next].rsp) || !CanaryIntact(memory, tasks[next]) {
          return;
        }
      } else if next != 15 || readyBitmap[next] {
        return;
      }
      if criticalTaskMask != NoBits() && And(watchdogMatrix, criticalTaskMask) == criticalTaskMask {
        pet := true;
        watchdogMatrix := NoBits();
      }
      currentTask := next;
      rsp := tasks[next].rsp;
    }
  }
}
