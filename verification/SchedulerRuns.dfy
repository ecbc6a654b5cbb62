/**
 Whole runs of the scheduler: any sequence of calls, with the host free to overwrite any stack word
 between them. `log` records history; no step reads it. The functions of the log below say what the
 calls so far amount to, one field at a time, and every run is proved to be in that state.
 */
module SchedulerRuns {
  import opened Words
  import opened Schedulers

  datatype Event =
    | Started(tcb: Tcb, canary: u64)
    | MadeReady(task: nat, on: bool)
    | CheckedIn(task: nat)
    | Required(mask: Bits16)
    | Kept(task: nat, rsp: u64)
    | Pet(mask: Bits16)
    | Ran(task: nat, rsp: u64, ready: Bits16)
    | Faulted
    | Wrote(address: u64, value: u64)

  datatype Machine = Machine(s: State, memory: Memory, log: seq<Event>)

  datatype Move =
    | Create(tcb: Tcb, canary: u64)
    | Ready(priority: u8, on: bool)
    | Arrive(priority: u8)
    | Require(mask: Bits16)
    | Interrupt(rsp: u64)
    | HostWrite(address: u64, value: u64)

  // ---- Steps ----

  function CreateEvents(s: State, tcb: Tcb, canary: u64): seq<Event> {
    if Registrable(s, tcb) then [Started(tcb, canary)] else []
  }

  function ArriveEvents(s: State, priority: u8): seq<Event> {
    if priority < 16 && Registered(s, priority) then [CheckedIn(priority)] else []
  }

  function SaveEvents(s: State, memory: Memory, rsp: u64): seq<Event> {
    if Saves(s, rsp) && !SaveFaults(s, memory, rsp) then [Kept(s.current, rsp)] else []
  }

  function ResultEvents(s: State, s': State, ticked: Ticked): seq<Event> {
    match ticked
    case Fault => [Faulted]
    case Dispatch(next, pet) =>
      (if pet then [Pet(s.critical)] else []) + [Ran(next, Returned(s', ticked), s.ready)]
  }

  function Step(m: Machine, move: Move): Machine {
    match move
    case Create(tcb, canary) =>
      var (s, memory, _) := CreateTask(m.s, m.memory, tcb, canary);
      Machine(s, memory, m.log + CreateEvents(m.s, tcb, canary))
    case Ready(priority, on) =>
      m.(s := SetReady(m.s, priority, on), log := m.log + [MadeReady(priority, on)])
    case Arrive(priority) => m.(s := CheckIn(m.s, priority), log := m.log + ArriveEvents(m.s, priority))
    case Require(mask) => m.(s := SetCriticalMask(m.s, mask), log := m.log + [Required(mask)])
    case Interrupt(rsp) =>
      var (s, ticked) := Tick(m.s, m.memory, rsp);
      m.(s := s, log := m.log + SaveEvents(m.s, m.memory, rsp) + ResultEvents(m.s, s, ticked))
    case HostWrite(address, value) =>
      m.(memory := m.memory[address := value], log := m.log + [Wrote(address, value)])
  }

  function Run(m: Machine, moves: seq<Move>): Machine
    decreases |moves|
  {
    if moves == [] then m else Run(Step(m, moves[0]), moves[1..])
  }

  function Boot(memory: Memory): Machine { Machine(New(), memory, []) }

  // ---- What the log means ----

  function Front(log: seq<Event>): seq<Event> requires log != [] { log[..|log| - 1] }
  function Last(log: seq<Event>): Event requires log != [] { log[|log| - 1] }

  /** The task at priority `i`: as it was registered, with the pointer last saved for it. */
  function TaskBy(log: seq<Event>, i: nat): Tcb
    decreases |log|
  {
    if log == [] then EmptyTcb()
    else match Last(log)
      case Started(tcb, canary) => if tcb.priority == i then tcb.(stackCanary := canary) else TaskBy(Front(log), i)
      case Kept(task, rsp) => if task == i then TaskBy(Front(log), i).(rsp := rsp) else TaskBy(Front(log), i)
      case _ => TaskBy(Front(log), i)
  }

  predicate ExistsBy(log: seq<Event>, i: nat) { TaskBy(log, i).stackBase != 0 }

  /** Registered or made ready last, and not cleared since. */
  predicate ReadyBy(log: seq<Event>, i: nat)
    decreases |log|
  {
    if log == [] then false
    else match Last(log)
      case Started(tcb, _) => tcb.priority == i || ReadyBy(Front(log), i)
      case MadeReady(task, on) => if task == i then on else ReadyBy(Front(log), i)
      case _ => ReadyBy(Front(log), i)
  }

  /** In the mask last required, and registered by then. */
  predicate CriticalBy(log: seq<Event>, i: nat)
    requires i < MAX_TASKS
    decreases |log|
  {
    if log == [] then false
    else match Last(log)
      case Required(mask) => mask[i] && ExistsBy(Front(log), i)
      case _ => CriticalBy(Front(log), i)
  }

  /** Checked in since the last pet, and critical under every mask required since. */
  predicate WatchedBy(log: seq<Event>, i: nat)
    requires i < MAX_TASKS
    decreases |log|
  {
    if log == [] then false
    else match Last(log)
      case CheckedIn(task) => task == i || WatchedBy(Front(log), i)
      case Pet(_) => false
      case Required(_) => WatchedBy(Front(log), i) && CriticalBy(log, i)
      case _ => WatchedBy(Front(log), i)
  }

  /** The task dispatched last; the idle slot before any. */
  function CurrentBy(log: seq<Event>): nat
    decreases |log|
  {
    if log == [] then 15 else if Last(log).Ran? then Last(log).task else CurrentBy(Front(log))
  }

  /** The word the host or a registration last wrote at `address`. */
  function WordBy(log: seq<Event>, memory: Memory, address: u64): u64
    decreases |log|
  {
    if log == [] then Read(memory, address)
    else match Last(log)
      case Started(tcb, canary) => if tcb.stackBase == address then canary else WordBy(Front(log), memory, address)
      case Wrote(to, value) => if to == address then value else WordBy(Front(log), memory, address)
      case _ => WordBy(Front(log), memory, address)
  }

  // ---- Invariant ----

  ghost predicate SlotIsHistory(s: State, log: seq<Event>, i: nat)
    requires i < MAX_TASKS
  {
    && s.tasks[i] == TaskBy(log, i) && s.ready[i] == ReadyBy(log, i)
    && s.critical[i] == CriticalBy(log, i) && s.watchdog[i] == WatchedBy(log, i)
  }

  ghost predicate IsHistory(s: State, log: seq<Event>) {
    s.current == CurrentBy(log) < MAX_TASKS && forall i :: 0 <= i < MAX_TASKS ==> SlotIsHistory(s, log, i)
  }

  ghost predicate MemoryIsHistory(memory: Memory, log: seq<Event>, start: Memory) {
    forall address: u64 :: Read(memory, address) == WordBy(log, start, address)
  }

  /** A registered task's saved pointer is in its stack, above the canary. */
  predicate SlotOk(tcb: Tcb, i: nat) {
    if tcb.stackBase == 0 then tcb == EmptyTcb()
    else tcb.priority == i && tcb.entryPoint != 0 && ValidStackPointer(tcb, tcb.rsp)
  }

  ghost predicate SlotsInv(s: State) {
    && (forall i :: 0 <= i < MAX_TASKS ==> SlotOk(s.tasks[i], i))
    && (forall i :: 0 <= i < MAX_TASKS && s.critical[i] ==> Registered(s, i))
  }

  /** What an event says about the history before it. */
  ghost predicate EventOk(log: seq<Event>, e: Event) {
    match e
    case Started(tcb, _) => tcb.priority < MAX_TASKS && tcb.stackBase != 0 && !ExistsBy(log, tcb.priority)
    case CheckedIn(task) => task < MAX_TASKS && ExistsBy(log, task)
    case Kept(task, rsp) => task == CurrentBy(log) && ExistsBy(log, task) && ValidStackPointer(TaskBy(log, task), rsp)
    case Pet(mask) =>
      && (exists i :: 0 <= i < MAX_TASKS && mask[i])
      && (forall i :: 0 <= i < MAX_TASKS ==> (mask[i] <==> CriticalBy(log, i)) && (mask[i] ==> WatchedBy(log, i)))
      && (forall i :: 0 <= i < MAX_TASKS && mask[i] ==> ExistsBy(log, i))
    case Ran(task, rsp, ready) =>
      && Chosen(ready, task) && rsp == TaskBy(log, task).rsp
      && (forall i :: 0 <= i < MAX_TASKS ==> (ready[i] <==> ReadyBy(log, i)))
    case _ => true
  }

  ghost predicate LogInv(log: seq<Event>) { forall k :: 0 <= k < |log| ==> EventOk(log[..k], log[k]) }

  ghost predicate Inv(m: Machine) { SlotsInv(m.s) && IsHistory(m.s, m.log) && LogInv(m.log) }

  // ---- Appending one event ----

  lemma LogSnoc(log: seq<Event>, e: Event)
    requires LogInv(log) && EventOk(log, e)
    ensures LogInv(log + [e])
  {
    var log' := log + [e];
    forall k | 0 <= k < |log'| ensures EventOk(log'[..k], log'[k]) {
      if k < |log| {
        assert log'[..k] == log[..k];
      } else {
        assert log'[..k] == log;
      }
    }
  }

  lemma FrontSnoc(log: seq<Event>, e: Event)
    ensures Front(log + [e]) == log && Last(log + [e]) == e
  {
  }

  /** An event that changes no task's record. */
  predicate Quiet(e: Event) { e.Ran? || e.Faulted? || e.Wrote? }

  lemma QuietEvent(s: State, log: seq<Event>, e: Event)
    requires Quiet(e) && forall i :: 0 <= i < MAX_TASKS ==> SlotIsHistory(s, log, i)
    ensures forall i :: 0 <= i < MAX_TASKS ==> SlotIsHistory(s, log + [e], i)
  {
    FrontSnoc(log, e);
    forall i | 0 <= i < MAX_TASKS ensures SlotIsHistory(s, log + [e], i) {
      assert SlotIsHistory(s, log, i);
    }
  }

  // ---- Preservation ----

  lemma CreateKeepsSlot(s: State, memory: Memory, log: seq<Event>, tcb: Tcb, canary: u64, i: nat)
    requires i < MAX_TASKS && SlotIsHistory(s, log, i) && Registrable(s, tcb)
    ensures SlotIsHistory(CreateTask(s, memory, tcb, canary).0, log + [Started(tcb, canary)], i)
  {
    FrontSnoc(log, Started(tcb, canary));
  }

  lemma CreateKeepsSlots(s: State, memory: Memory, tcb: Tcb, canary: u64)
    requires SlotsInv(s)
    ensures SlotsInv(CreateTask(s, memory, tcb, canary).0)
  {
  }

  lemma CreateKeepsInv(m: Machine, tcb: Tcb, canary: u64)
    requires Inv(m)
    ensures Inv(Step(m, Create(tcb, canary)))
  {
    CreateKeepsSlots(m.s, m.memory, tcb, canary);
    if Registrable(m.s, tcb) {
      var e := Started(tcb, canary);
      FrontSnoc(m.log, e);
      assert SlotIsHistory(m.s, m.log, tcb.priority);
      LogSnoc(m.log, e);
      forall i | 0 <= i < MAX_TASKS
        ensures SlotIsHistory(CreateTask(m.s, m.memory, tcb, canary).0, m.log + [e], i)
      {
        assert SlotIsHistory(m.s, m.log, i);
        CreateKeepsSlot(m.s, m.memory, m.log, tcb, canary, i);
      }
    } else {
      assert m.log + [] == m.log;
    }
  }

  lemma ReadyKeepsSlot(s: State, log: seq<Event>, priority: u8, on: bool, i: nat)
    requires i < MAX_TASKS && SlotIsHistory(s, log, i)
    ensures SlotIsHistory(SetReady(s, priority, on), log + [MadeReady(priority, on)], i)
  {
    FrontSnoc(log, MadeReady(priority, on));
  }

  lemma ReadyKeepsInv(m: Machine, priority: u8, on: bool)
    requires Inv(m)
    ensures Inv(Step(m, Ready(priority, on)))
  {
    var e := MadeReady(priority, on);
    FrontSnoc(m.log, e);
    LogSnoc(m.log, e);
    forall i | 0 <= i < MAX_TASKS ensures SlotIsHistory(SetReady(m.s, priority, on), m.log + [e], i) {
      assert SlotIsHistory(m.s, m.log, i);
      ReadyKeepsSlot(m.s, m.log, priority, on, i);
    }
  }

  lemma ArriveKeepsSlot(s: State, log: seq<Event>, priority: u8, i: nat)
    requires i < MAX_TASKS && SlotIsHistory(s, log, i) && priority < 16 && Registered(s, priority)
    ensures SlotIsHistory(CheckIn(s, priority), log + [CheckedIn(priority)], i)
  {
    FrontSnoc(log, CheckedIn(priority));
  }

  lemma ArriveKeepsInv(m: Machine, priority: u8)
    requires Inv(m)
    ensures Inv(Step(m, Arrive(priority)))
  {
    if priority < 16 && Registered(m.s, priority) {
      var e := CheckedIn(priority);
      FrontSnoc(m.log, e);
      assert SlotIsHistory(m.s, m.log, priority);
      LogSnoc(m.log, e);
      forall i | 0 <= i < MAX_TASKS ensures SlotIsHistory(CheckIn(m.s, priority), m.log + [e], i) {
        assert SlotIsHistory(m.s, m.log, i);
        ArriveKeepsSlot(m.s, m.log, priority, i);
      }
    } else {
      assert m.log + [] == m.log;
    }
  }

  lemma RequireKeepsInv(m: Machine, mask: Bits16)
    requires Inv(m)
    ensures Inv(Step(m, Require(mask)))
  {
    var (m', e) := (Step(m, Require(mask)), Required(mask));
    FrontSnoc(m.log, e);
    LogSnoc(m.log, e);
    forall i | 0 <= i < MAX_TASKS ensures SlotIsHistory(m'.s, m'.log, i) {
      assert SlotIsHistory(m.s, m.log, i);
    }
  }

  /** Saving the interrupted context. */
  lemma SaveKeepsInv(m: Machine, rsp: u64)
    requires Inv(m) && !SaveFaults(m.s, m.memory, rsp)
    ensures Inv(m.(s := Saved(m.s, rsp), log := m.log + SaveEvents(m.s, m.memory, rsp)))
  {
    var m' := m.(s := Saved(m.s, rsp), log := m.log + SaveEvents(m.s, m.memory, rsp));
    if Saves(m.s, rsp) {
      var e := Kept(m.s.current, rsp);
      FrontSnoc(m.log, e);
      assert SlotIsHistory(m.s, m.log, m.s.current);
      LogSnoc(m.log, e);
      forall i | 0 <= i < MAX_TASKS ensures SlotIsHistory(m'.s, m'.log, i) {
        assert SlotIsHistory(m.s, m.log, i);
      }
    } else {
      assert m'.log == m.log;
    }
  }

  lemma QuietKeepsInv(m: Machine, e: Event)
    requires Inv(m) && (e.Faulted? || e.Wrote?)
    ensures Inv(m.(log := m.log + [e]))
  {
    FrontSnoc(m.log, e);
    LogSnoc(m.log, e);
    QuietEvent(m.s, m.log, e);
  }

  lemma PetKeepsInv(m: Machine)
    requires Inv(m) && Quorum(m.s)
    ensures Inv(m.(s := m.s.(watchdog := NoBits()), log := m.log + [Pet(m.s.critical)]))
  {
    var e := Pet(m.s.critical);
    forall i | 0 <= i < 16
      ensures (e.mask[i] <==> CriticalBy(m.log, i)) && (e.mask[i] ==> WatchedBy(m.log, i) && ExistsBy(m.log, i))
    {
      assert SlotIsHistory(m.s, m.log, i);
      assert And(m.s.watchdog, m.s.critical)[i] == m.s.critical[i];
    }
    FrontSnoc(m.log, e);
    LogSnoc(m.log, e);
    var s' := m.s.(watchdog := NoBits());
    forall i | 0 <= i < MAX_TASKS ensures SlotIsHistory(s', m.log + [e], i) {
      assert SlotIsHistory(m.s, m.log, i);
    }
  }

  lemma RanKeepsInv(m: Machine, next: nat)
    requires Inv(m) && Chosen(m.s.ready, next)
    ensures Inv(m.(s := m.s.(current := next), log := m.log + [Ran(next, m.s.tasks[next].rsp, m.s.ready)]))
  {
    var e := Ran(next, m.s.tasks[next].rsp, m.s.ready);
    forall i | 0 <= i < MAX_TASKS ensures m.s.ready[i] <==> ReadyBy(m.log, i) {
      assert SlotIsHistory(m.s, m.log, i);
    }
    assert SlotIsHistory(m.s, m.log, next);
    FrontSnoc(m.log, e);
    LogSnoc(m.log, e);
    QuietEvent(m.s, m.log, e);
    forall i | 0 <= i < MAX_TASKS ensures SlotIsHistory(m.s.(current := next), m.log + [e], i) {
      assert SlotIsHistory(m.s, m.log + [e], i);
    }
  }

  lemma PetThenRan(log: seq<Event>, pet: Event, ran: Event)
    ensures log + [pet] + [ran] == log + ([pet] + [ran]) && log + ([] + [ran]) == log + [ran]
  {
  }

  /** A dispatch from a state whose context is saved: the pet, if any, then the switch. */
  lemma DispatchKeepsInv(m: Machine, next: nat, pet: bool)
    requires Inv(m) && Chosen(m.s.ready, next) && (pet ==> Quorum(m.s))
    ensures var s := m.s.(watchdog := if pet then NoBits() else m.s.watchdog, current := next);
            Inv(m.(s := s, log := m.log + ResultEvents(m.s, s, Dispatch(next, pet))))
  {
    var ran := Ran(next, m.s.tasks[next].rsp, m.s.ready);
    PetThenRan(m.log, Pet(m.s.critical), ran);
    if pet {
      PetKeepsInv(m);
      RanKeepsInv(m.(s := m.s.(watchdog := NoBits()), log := m.log + [Pet(m.s.critical)]), next);
    } else {
      RanKeepsInv(m, next);
    }
  }

  /** What a tick is, once the context is saved. */
  lemma SavedTick(s: State, memory: Memory, rsp: u64)
    requires s.current < MAX_TASKS && !SaveFaults(s, memory, rsp)
    ensures var (s', ticked) := Tick(s, memory, rsp);
            var saved := Saved(s, rsp);
            && saved.ready == s.ready && saved.critical == s.critical && saved.watchdog == s.watchdog
            && match ticked
               case Fault => s' == saved
               case Dispatch(next, pet) =>
                 && Chosen(s.ready, next) && pet == Quorum(s) && Quorum(saved) == Quorum(s)
                 && s' == saved.(watchdog := if pet then NoBits() else saved.watchdog, current := next)
  {
    SelectedIsChosen(s.ready, Selected(s.ready));
  }

  /** A tick that has saved the context: what it does from there. */
  lemma SavedTickKeepsInv(m: Machine, rsp: u64)
    requires Inv(m) && !SaveFaults(m.s, m.memory, rsp)
    ensures Inv(Step(m, Interrupt(rsp)))
  {
    SaveKeepsInv(m, rsp);
    SavedTick(m.s, m.memory, rsp);
    var ticked := Tick(m.s, m.memory, rsp).1;
    var saved := m.(s := Saved(m.s, rsp), log := m.log + SaveEvents(m.s, m.memory, rsp));
    if ticked.Fault? {
      QuietKeepsInv(saved, Faulted);
    } else {
      DispatchKeepsInv(saved, ticked.next, ticked.pet);
    }
  }

  lemma InterruptKeepsInv(m: Machine, rsp: u64)
    requires Inv(m)
    ensures Inv(Step(m, Interrupt(rsp)))
  {
    if SaveFaults(m.s, m.memory, rsp) {
      assert m.log + [] == m.log;
      QuietKeepsInv(m, Faulted);
    } else {
      SavedTickKeepsInv(m, rsp);
    }
  }

  lemma StepKeepsInv(m: Machine, move: Move)
    requires Inv(m)
    ensures Inv(Step(m, move))
  {
    match move
    case Create(tcb, canary) => CreateKeepsInv(m, tcb, canary);
    case Ready(priority, on) => ReadyKeepsInv(m, priority, on);
    case Arrive(priority) => ArriveKeepsInv(m, priority);
    case Require(mask) => RequireKeepsInv(m, mask);
    case Interrupt(rsp) => InterruptKeepsInv(m, rsp);
    case HostWrite(address, value) => QuietKeepsInv(m, Wrote(address, value));
  }

  lemma {:induction false} RunKeepsInv(m: Machine, moves: seq<Move>)
    requires Inv(m)
    ensures Inv(Run(m, moves))
    decreases |moves|
  {
    if moves != [] {
      StepKeepsInv(m, moves[0]);
      RunKeepsInv(Step(m, moves[0]), moves[1..]);
    }
  }

  lemma BootInv(memory: Memory)
    ensures Inv(Boot(memory))
  {
  }

  // ---- Theorems over every run ----

  /**
   After every run each field is what the calls so far amount to: tasks as registered with the pointer last
   saved, ready bits as last set, the mask as last required of registered tasks, check-ins since the last pet.
   */
  lemma StateIsHistory(memory: Memory, moves: seq<Move>, i: nat)
    requires i < MAX_TASKS
    ensures var m := Run(Boot(memory), moves);
            && m.s.current == CurrentBy(m.log)
            && m.s.tasks[i] == TaskBy(m.log, i) && m.s.ready[i] == ReadyBy(m.log, i)
            && m.s.critical[i] == CriticalBy(m.log, i) && m.s.watchdog[i] == WatchedBy(m.log, i)
  {
    BootInv(memory);
    RunKeepsInv(Boot(memory), moves);
    assert SlotIsHistory(Run(Boot(memory), moves).s, Run(Boot(memory), moves).log, i);
  }

  /**
   Registered tasks always hold a pointer into their own stack, above the canary word, in a stack that is aligned
   and does not wrap.
   */
  lemma SavedContextsStayValid(memory: Memory, moves: seq<Move>, i: nat)
    requires i < MAX_TASKS
    ensures var s := Run(Boot(memory), moves).s;
            Registered(s, i) ==>
              var tcb := s.tasks[i];
              && tcb.priority == i && tcb.entryPoint != 0
              && tcb.stackBase % 8 == 0 && 8 <= tcb.stackSize && tcb.stackBase + tcb.stackSize < WORDS
              && tcb.stackBase + 8 <= tcb.rsp <= tcb.stackBase + tcb.stackSize
    ensures var s := Run(Boot(memory), moves).s;
            s.current < MAX_TASKS && (s.critical[i] ==> Registered(s, i))
  {
    BootInv(memory);
    RunKeepsInv(Boot(memory), moves);
    assert SlotOk(Run(Boot(memory), moves).s.tasks[i], i);
  }

  /** Every dispatch runs the lowest ready bit, on the pointer last validated for that task. */
  lemma DispatchesAreFaithful(memory: Memory, moves: seq<Move>, k: nat)
    requires k < |Run(Boot(memory), moves).log| && Run(Boot(memory), moves).log[k].Ran?
    ensures var log := Run(Boot(memory), moves).log;
            && Chosen(log[k].ready, log[k].task) && log[k].rsp == TaskBy(log[..k], log[k].task).rsp
            && (forall i :: 0 <= i < MAX_TASKS ==> (log[k].ready[i] <==> ReadyBy(log[..k], i)))
  {
    BootInv(memory);
    RunKeepsInv(Boot(memory), moves);
    assert EventOk(Run(Boot(memory), moves).log[..k], Run(Boot(memory), moves).log[k]);
  }

  ghost predicate WasStarted(log: seq<Event>, task: nat) {
    exists k :: 0 <= k < |log| && log[k].Started? && log[k].tcb.priority == task
  }

  /** `task` checked in, and the watchdog was not petted since. */
  ghost predicate CheckedInSincePet(log: seq<Event>, task: nat) {
    exists k :: 0 <= k < |log| && log[k] == CheckedIn(task) && NoPetFrom(log, k)
  }

  ghost predicate NoPetFrom(log: seq<Event>, from: nat) {
    forall k :: from <= k < |log| ==> !log[k].Pet?
  }

  lemma {:induction false} ExistsMeansStarted(log: seq<Event>, i: nat)
    requires ExistsBy(log, i)
    ensures WasStarted(log, i)
    decreases |log|
  {
    var last := Last(log);
    if last.Started? && last.tcb.priority == i {
      assert log[|log| - 1] == last;
    } else {
      ExistsMeansStarted(Front(log), i);
      var k :| 0 <= k < |Front(log)| && Front(log)[k].Started? && Front(log)[k].tcb.priority == i;
      assert log[k] == Front(log)[k];
    }
  }

  lemma {:induction false} WatchedMeansCheckedIn(log: seq<Event>, i: nat)
    requires i < MAX_TASKS && WatchedBy(log, i)
    ensures CheckedInSincePet(log, i)
    decreases |log|
  {
    if Last(log) == CheckedIn(i) {
      assert log[|log| - 1] == CheckedIn(i) && NoPetFrom(log, |log| - 1);
    } else {
      WatchedMeansCheckedIn(Front(log), i);
      var k :| 0 <= k < |Front(log)| && Front(log)[k] == CheckedIn(i) && NoPetFrom(Front(log), k);
      forall j | k <= j < |log| ensures !log[j].Pet? {
        assert j < |log| - 1 ==> log[j] == Front(log)[j];
      }
      assert log[k] == CheckedIn(i) && NoPetFrom(log, k);
    }
  }

  /** Every pet follows, since the previous pet, a check-in by each critical task, all of them registered. */
  lemma PetsNeedEveryCheckIn(memory: Memory, moves: seq<Move>, k: nat, i: nat)
    requires k < |Run(Boot(memory), moves).log| && Run(Boot(memory), moves).log[k].Pet?
    requires i < MAX_TASKS && CriticalBy(Run(Boot(memory), moves).log[..k], i)
    ensures var log := Run(Boot(memory), moves).log;
            WasStarted(log[..k], i) && CheckedInSincePet(log[..k], i)
  {
    BootInv(memory);
    RunKeepsInv(Boot(memory), moves);
    var log := Run(Boot(memory), moves).log;
    assert EventOk(log[..k], log[k]);
    ExistsMeansStarted(log[..k], i);
    WatchedMeansCheckedIn(log[..k], i);
  }

  lemma FrontOk(log: seq<Event>)
    requires LogInv(log) && log != []
    ensures LogInv(Front(log)) && EventOk(Front(log), Last(log))
  {
    forall j | 0 <= j < |Front(log)| ensures EventOk(Front(log)[..j], Front(log)[j]) {
      assert Front(log)[..j] == log[..j] && EventOk(log[..j], log[j]);
    }
    assert EventOk(log[..|log| - 1], log[|log| - 1]);
  }

  /** A registered task stays registered. */
  lemma {:induction false} StartedExists(log: seq<Event>, k: nat)
    requires LogInv(log) && k < |log| && log[k].Started? && log[k].tcb.stackBase != 0
    ensures ExistsBy(log, log[k].tcb.priority)
    decreases |log|
  {
    if k < |log| - 1 {
      FrontOk(log);
      StartedExists(Front(log), k);
    }
  }

  /** No priority is ever given to two tasks. */
  lemma OneTaskPerPriority(memory: Memory, moves: seq<Move>, j: nat, k: nat)
    requires var log := Run(Boot(memory), moves).log; j < k < |log| && log[j].Started? && log[k].Started?
    ensures var log := Run(Boot(memory), moves).log; log[j].tcb.priority != log[k].tcb.priority
  {
    BootInv(memory);
    RunKeepsInv(Boot(memory), moves);
    var log := Run(Boot(memory), moves).log;
    PrefixOk(log, k);
    assert EventOk(log[..k], log[k]) && EventOk(log[..j], log[j]);
    assert log[..k][j] == log[j];
    StartedExists(log[..k], j);
  }

  lemma PrefixOk(log: seq<Event>, n: nat)
    requires LogInv(log) && n <= |log|
    ensures LogInv(log[..n])
  {
    forall j | 0 <= j < n ensures EventOk(log[..n][..j], log[..n][j]) {
      assert log[..n][..j] == log[..j] && EventOk(log[..j], log[j]);
    }
  }

  // ---- Canaries ----

  lemma WordStays(log: seq<Event>, e: Event, start: Memory, address: u64)
    requires (e.Started? ==> e.tcb.stackBase != address) && (e.Wrote? ==> e.address != address)
    ensures WordBy(log + [e], start, address) == WordBy(log, start, address)
  {
    FrontSnoc(log, e);
  }

  lemma ResultKeepsWords(log: seq<Event>, s: State, s': State, ticked: Ticked, start: Memory, address: u64)
    ensures WordBy(log + ResultEvents(s, s', ticked), start, address) == WordBy(log, start, address)
  {
    if ticked.Fault? {
      WordStays(log, Faulted, start, address);
    } else {
      var (pet, ran) := (Pet(s.critical), Ran(ticked.next, Returned(s', ticked), s.ready));
      if ticked.pet {
        WordStays(log, pet, start, address);
        WordStays(log + [pet], ran, start, address);
        assert log + ([pet] + [ran]) == log + [pet] + [ran];
      } else {
        WordStays(log, ran, start, address);
        assert log + ([] + [ran]) == log + [ran];
      }
    }
  }

  lemma TickKeepsWords(m: Machine, rsp: u64, start: Memory, address: u64)
    ensures WordBy(Step(m, Interrupt(rsp)).log, start, address) == WordBy(m.log, start, address)
  {
    var (s, ticked) := Tick(m.s, m.memory, rsp);
    var kept := SaveEvents(m.s, m.memory, rsp);
    if kept == [] {
      assert m.log + kept == m.log;
    } else {
      WordStays(m.log, kept[0], start, address);
    }
    ResultKeepsWords(m.log + kept, m.s, s, ticked, start, address);
  }

  lemma CreateKeepsWords(m: Machine, tcb: Tcb, canary: u64, start: Memory, address: u64)
    requires Read(m.memory, address) == WordBy(m.log, start, address)
    ensures var m' := Step(m, Create(tcb, canary)); Read(m'.memory, address) == WordBy(m'.log, start, address)
  {
    FrontSnoc(m.log, Started(tcb, canary));
    assert m.log + [] == m.log;
  }

  lemma WriteKeepsWords(m: Machine, to: u64, value: u64, start: Memory, address: u64)
    requires Read(m.memory, address) == WordBy(m.log, start, address)
    ensures var m' := Step(m, HostWrite(to, value)); Read(m'.memory, address) == WordBy(m'.log, start, address)
  {
    FrontSnoc(m.log, Wrote(to, value));
  }

  lemma ArriveKeepsWords(m: Machine, priority: u8, start: Memory, address: u64)
    ensures WordBy(Step(m, Arrive(priority)).log, start, address) == WordBy(m.log, start, address)
  {
    WordStays(m.log, CheckedIn(priority), start, address);
    assert m.log + [] == m.log;
  }

  lemma OtherKeepsWords(m: Machine, move: Move, start: Memory, address: u64)
    requires Read(m.memory, address) == WordBy(m.log, start, address) && !move.Interrupt? && !move.Create?
    ensures var m' := Step(m, move); Read(m'.memory, address) == WordBy(m'.log, start, address)
  {
    match move
    case Ready(priority, on) => WordStays(m.log, MadeReady(priority, on), start, address);
    case Arrive(priority) => ArriveKeepsWords(m, priority, start, address);
    case Require(mask) => WordStays(m.log, Required(mask), start, address);
    case HostWrite(to, value) => WriteKeepsWords(m, to, value, start, address);
  }

  lemma StepKeepsMemory(m: Machine, move: Move, start: Memory)
    requires MemoryIsHistory(m.memory, m.log, start)
    ensures MemoryIsHistory(Step(m, move).memory, Step(m, move).log, start)
  {
    forall address: u64 ensures Read(Step(m, move).memory, address) == WordBy(Step(m, move).log, start, address) {
      assert Read(m.memory, address) == WordBy(m.log, start, address);
      if move.Interrupt? {
        TickKeepsWords(m, move.rsp, start, address);
      } else if move.Create? {
        CreateKeepsWords(m, move.tcb, move.canary, start, address);
      } else {
        OtherKeepsWords(m, move, start, address);
      }
    }
  }

  lemma {:induction false} RunKeepsMemory(m: Machine, moves: seq<Move>, start: Memory)
    requires MemoryIsHistory(m.memory, m.log, start)
    ensures MemoryIsHistory(Run(m, moves).memory, Run(m, moves).log, start)
    decreases |moves|
  {
    if moves != [] {
      StepKeepsMemory(m, moves[0], start);
      RunKeepsMemory(Step(m, moves[0]), moves[1..], start);
    }
  }

  /** After the task was registered, the host or another registration wrote some other value over its canary. */
  ghost predicate Overwritten(log: seq<Event>, i: nat, from: int, at: int) {
    && 0 <= from < at < |log| && log[from].Started? && log[from].tcb.priority == i
    && var (base, canary) := (log[from].tcb.stackBase, log[from].canary);
    || (log[at].Wrote? && log[at].address == base && log[at].value != canary)
    || (log[at].Started? && log[at].tcb.stackBase == base && log[at].canary != canary)
  }

  lemma {:induction false} BrokenMeansOverwritten(log: seq<Event>, start: Memory, i: nat) returns (from: nat, at: nat)
    requires LogInv(log) && ExistsBy(log, i)
    requires WordBy(log, start, TaskBy(log, i).stackBase) != TaskBy(log, i).stackCanary
    ensures Overwritten(log, i, from, at) && log[from].tcb.stackBase == TaskBy(log, i).stackBase
    ensures log[from].canary == TaskBy(log, i).stackCanary
    decreases |log|
  {
    var (last, base, canary) := (Last(log), TaskBy(log, i).stackBase, TaskBy(log, i).stackCanary);
    FrontOk(log);
    if WordBy(Front(log), start, base) != canary || !ExistsBy(Front(log), i) {
      from, at := BrokenMeansOverwritten(Front(log), start, i);
    } else {
      from := StartedAt(Front(log), i);
      at := |log| - 1;
    }
  }

  lemma {:induction false} StartedAt(log: seq<Event>, i: nat) returns (from: nat)
    requires LogInv(log) && ExistsBy(log, i)
    ensures from < |log| && log[from].Started? && log[from].tcb.priority == i
    ensures log[from].tcb.stackBase == TaskBy(log, i).stackBase && log[from].canary == TaskBy(log, i).stackCanary
    decreases |log|
  {
    FrontOk(log);
    if Last(log).Started? && Last(log).tcb.priority == i {
      from := |log| - 1;
    } else {
      from := StartedAt(Front(log), i);
    }
  }

  /**
   On every run a canary is found broken exactly when the word last written over it differs, and then the host, or
   the registration of a task on the same stack base, has overwritten it since the task was registered.
   */
  lemma CanaryBrokenMeansWritten(memory: Memory, moves: seq<Move>, i: nat)
    requires i < MAX_TASKS && Registered(Run(Boot(memory), moves).s, i)
    ensures var m := Run(Boot(memory), moves);
            CanaryIntact(m.memory, m.s.tasks[i]) <==>
              WordBy(m.log, memory, m.s.tasks[i].stackBase) == m.s.tasks[i].stackCanary
    ensures var m := Run(Boot(memory), moves);
            !CanaryIntact(m.memory, m.s.tasks[i]) ==> exists from, at :: Overwritten(m.log, i, from, at)
  {
    BootInv(memory);
    RunKeepsInv(Boot(memory), moves);
    RunKeepsMemory(Boot(memory), moves, memory);
    var m := Run(Boot(memory), moves);
    assert SlotIsHistory(m.s, m.log, i);
    assert Read(m.memory, m.s.tasks[i].stackBase) == WordBy(m.log, memory, m.s.tasks[i].stackBase);
    if !CanaryIntact(m.memory, m.s.tasks[i]) {
      var from, at := BrokenMeansOverwritten(m.log, memory, i);
    }
  }

  // ---- Registration ----

  /**
   On every run a registration succeeds exactly for a task with an entry point, a priority in range that no task
   has, and a pointer above the canary word of an aligned stack that does not wrap; otherwise nothing changes.
   */
  lemma RegistersExactly(memory: Memory, moves: seq<Move>, tcb: Tcb, canary: u64)
    ensures var m := Run(Boot(memory), moves);
            var m' := Step(m, Create(tcb, canary));
            var accepted := && tcb.entryPoint != 0 && tcb.priority < 16 && !ExistsBy(m.log, tcb.priority)
                            && tcb.stackBase != 0 && tcb.stackBase % 8 == 0 && tcb.stackSize >= 8
                            && tcb.stackBase + 8 <= tcb.rsp <= tcb.stackBase + tcb.stackSize < WORDS;
            && (CreateTask(m.s, m.memory, tcb, canary).2.Done? <==> accepted)
            && m'.log == m.log + (if accepted then [Started(tcb, canary)] else []) && (accepted || m' == m)
  {
    BootInv(memory);
    RunKeepsInv(Boot(memory), moves);
    var m := Run(Boot(memory), moves);
    if tcb.priority < 16 {
      assert SlotIsHistory(m.s, m.log, tcb.priority);
    }
    assert m.log + [] == m.log;
  }

  // ---- Ticks ----

  /** Why a tick faults: a bad context to save, a broken canary, or a ready bit without a task. */
  predicate NextBroken(m: Machine, next: nat)
    requires next < MAX_TASKS
  {
    if Registered(m.s, next) then !CanaryIntact(m.memory, m.s.tasks[next]) else m.s.ready[next]
  }

  /** A tick faults exactly then, and a faulting tick changes at most the saved pointer of the current task. */
  lemma TickFaultsIff(memory: Memory, moves: seq<Move>, rsp: u64, next: nat)
    requires Chosen(Run(Boot(memory), moves).s.ready, next)
    ensures var m := Run(Boot(memory), moves);
            var (s, ticked) := Tick(m.s, m.memory, rsp);
            && (ticked.Fault? <==> SaveFaults(m.s, m.memory, rsp) || NextBroken(m, next))
            && (ticked.Fault? ==> s == m.s.(tasks := s.tasks) && (SaveFaults(m.s, m.memory, rsp) ==> s == m.s))
            && (ticked.Fault? ==>
                  forall i :: 0 <= i < MAX_TASKS && i != m.s.current ==> s.tasks[i] == m.s.tasks[i])
  {
    BootInv(memory);
    RunKeepsInv(Boot(memory), moves);
    var m := Run(Boot(memory), moves);
    SelectedIsChosen(m.s.ready, next);
    assert SlotOk(m.s.tasks[next], next);
    assert !SaveFaults(m.s, m.memory, rsp) ==>
             (Registered(Saved(m.s, rsp), next) ==>
                ValidStackPointer(Saved(m.s, rsp).tasks[next], Saved(m.s, rsp).tasks[next].rsp));
  }

  /** A tick that dispatches pets exactly when some task is critical and every critical one has checked in. */
  lemma PetsExactly(s: State, memory: Memory, rsp: u64)
    ensures var ticked := Tick(s, memory, rsp).1;
            ticked.Dispatch? ==>
              (ticked.pet <==> (exists i :: 0 <= i < 16 && s.critical[i]) &&
                               (forall i :: 0 <= i < 16 && s.critical[i] ==> s.watchdog[i]))
  {
  }

  /** A stack overflow the tick can see: a broken canary of the task being saved, or of the next one. */
  predicate Overflow(m: Machine, rsp: u64, next: nat)
    requires next < MAX_TASKS
  {
    || (Saves(m.s, rsp) && ValidStackPointer(m.s.tasks[m.s.current], rsp)
        && !CanaryIntact(m.memory, m.s.tasks[m.s.current]))
    || (Registered(m.s, next) && !CanaryIntact(m.memory, m.s.tasks[next]))
  }

  /** The host passed a pointer that is not in the current task's stack. */
  predicate StrayPointer(m: Machine, rsp: u64) {
    Saves(m.s, rsp) && !ValidStackPointer(m.s.tasks[m.s.current], rsp)
  }

  /** What a returned zero means, from the state before the tick: an overflow, a stray pointer, or no task to run. */
  lemma ZeroIff(memory: Memory, moves: seq<Move>, rsp: u64, next: nat)
    requires Chosen(Run(Boot(memory), moves).s.ready, next)
    ensures var m := Run(Boot(memory), moves);
            var (s, ticked) := Tick(m.s, m.memory, rsp);
            Returned(s, ticked) == 0 <==> (Overflow(m, rsp, next) || StrayPointer(m, rsp) || !Registered(m.s, next))
  {
    BootInv(memory);
    RunKeepsInv(Boot(memory), moves);
    TickFaultsIff(memory, moves, rsp, next);
    var m := Run(Boot(memory), moves);
    SelectedIsChosen(m.s.ready, next);
    assert SlotOk(m.s.tasks[next], next);
  }

  /** A zero without a fault: nothing ready and no idle task, straight from boot. */
  lemma IdleTickReturnsZero(memory: Memory)
    ensures var m := Run(Boot(memory), []);
            var (s, ticked) := Tick(m.s, m.memory, 0);
            ticked == Dispatch(15, false) && Returned(s, ticked) == 0 && !Overflow(m, 0, 15)
  {
    SelectedIsChosen(NoBits(), 15);
  }

  /** A zero for a ready bit without a task, with every canary intact. */
  lemma PhantomTaskReturnsZero(memory: Memory)
    ensures var m := Run(Boot(memory), [Ready(3, true)]);
            var (s, ticked) := Tick(m.s, m.memory, 0);
            ticked.Fault? && Returned(s, ticked) == 0 && !Overflow(m, 0, 3)
  {
    var moves: seq<Move> := [Ready(3, true)];
    assert moves[1..] == [];
    var m := Run(Boot(memory), moves);
    assert m == Step(Boot(memory), moves[0]);
    SelectedIsChosen(m.s.ready, 3);
  }

  /** A zero for a pointer outside the running task's stack, with every canary intact. */
  lemma StrayPointerReturnsZero(memory: Memory, canary: u64)
    ensures var m := Run(Boot(memory), [Create(Tcb(1, 8, 16, 16, 0, 0), canary), Interrupt(0)]);
            var (s, ticked) := Tick(m.s, m.memory, 1);
            m.s.current == 0 && ticked.Fault? && Returned(s, ticked) == 0 && !Overflow(m, 1, 0)
  {
    var moves: seq<Move> := [Create(Tcb(1, 8, 16, 16, 0, 0), canary), Interrupt(0)];
    var m1 := Step(Boot(memory), moves[0]);
    assert moves[1..] == [Interrupt(0)] && moves[1..][1..] == [];
    assert Run(Boot(memory), moves) == Run(m1, moves[1..]) == Step(m1, Interrupt(0));
    SelectedIsChosen(m1.s.ready, 0);
  }
}
