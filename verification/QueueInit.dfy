/**
 One-shot initialization of the SPSC queue and the ring buffer, with any number of concurrent `init`
 callers and any number of readers of the readiness flag. Each atomic access is one step.

 `owner`, `winner` and `log` record history; no step reads them.
 */
module QueueInit {
  import opened Wrappers

  /** Where a thread is: each constructor names its next access. */
  datatype Pc =
    | Idle
    | LoadReady(buffer: nat)
    | TakeGate(buffer: nat)
    | ReloadReady(buffer: nat)
    | ClearSlot(buffer: nat, index: nat)
    | PublishBuffer(buffer: nat)
    | SetReady(buffer: nat)
    | DropGate(ok: bool)
    | UserLoadReady
    | UserLoadBuffer

  datatype Event =
    | Cleared(thread: nat, buffer: nat, index: nat)
    | Published(thread: nat, buffer: nat)
    | InitOk(thread: nat)
    | AlreadyInitialized(thread: nat)
    | NotInitialized(thread: nat)
    | Uses(thread: nat, buffer: nat)

  datatype Winner = Winner(thread: nat, buffer: nat)

  datatype State = State(
    n: nat, isInitialized: bool, isInitializing: bool, buffer: nat, threads: seq<Pc>,
    owner: Option<nat>, winner: Option<Winner>, log: seq<Event>)

  datatype Turn = StartInit(thread: nat, base: nat) | StartUse(thread: nat) | Go(thread: nat)

  function Goto(s: State, t: nat, pc: Pc): State
    requires t < |s.threads|
  {
    s.(threads := s.threads[t := pc])
  }

  function Done(s: State, t: nat, e: Event): State
    requires t < |s.threads|
  {
    s.(threads := s.threads[t := Idle], log := s.log + [e])
  }

  function Step(s: State, turn: Turn): State {
    var t := turn.thread;
    if t >= |s.threads| then s
    else match turn
      case StartInit(_, base) => if s.threads[t].Idle? then Goto(s, t, LoadReady(base)) else s
      case StartUse(_) => if s.threads[t].Idle? then Goto(s, t, UserLoadReady) else s
      case Go(_) =>
        match s.threads[t] {
          case Idle => s
          case LoadReady(b) => if s.isInitialized then Done(s, t, AlreadyInitialized(t)) else Goto(s, t, TakeGate(b))
          case TakeGate(b) =>
            if s.isInitializing then Done(s, t, AlreadyInitialized(t))
            else Goto(s, t, ReloadReady(b)).(isInitializing := true, owner := Some(t))
          case ReloadReady(b) =>
            if s.isInitialized then Goto(s, t, DropGate(false))
            else Goto(s, t, ClearSlot(b, 0)).(winner := Some(Winner(t, b)))
          case ClearSlot(b, index) =>
            if index < s.n then Goto(s, t, ClearSlot(b, index + 1)).(log := s.log + [Cleared(t, b, index)])
            else Goto(s, t, PublishBuffer(b))
          case PublishBuffer(b) => Goto(s, t, SetReady(b)).(buffer := b, log := s.log + [Published(t, b)])
          case SetReady(_) => Goto(s, t, DropGate(true)).(isInitialized := true)
          case DropGate(ok) =>
            Done(s, t, if ok then InitOk(t) else AlreadyInitialized(t)).(isInitializing := false, owner := None)
          case UserLoadReady => if s.isInitialized then Goto(s, t, UserLoadBuffer) else Done(s, t, NotInitialized(t))
          case UserLoadBuffer => Done(s, t, Uses(t, s.buffer))
        }
  }

  // ---- Invariant ----

  /** Between winning the gate and giving it back. */
  predicate Inside(pc: Pc) {
    pc.ReloadReady? || pc.ClearSlot? || pc.PublishBuffer? || pc.SetReady? || pc.DropGate?
  }

  /** Past the second check of the readiness flag, before setting it. */
  predicate Building(pc: Pc) { pc.ClearSlot? || pc.PublishBuffer? || pc.SetReady? }

  ghost predicate GateInv(s: State) {
    && (s.isInitializing <==> s.owner.Some?)
    && (s.owner.Some? ==> s.owner.value < |s.threads| && Inside(s.threads[s.owner.value]))
    && (forall t :: 0 <= t < |s.threads| && Inside(s.threads[t]) ==> s.owner == Some(t))
  }

  ghost predicate WinnerInv(s: State) {
    && (s.isInitialized ==> s.winner.Some? && s.buffer == s.winner.value.buffer)
    && (s.winner.Some? && !s.isInitialized ==>
          s.winner.value.thread < |s.threads| && Building(s.threads[s.winner.value.thread]))
    && (forall t :: 0 <= t < |s.threads| && Building(s.threads[t]) ==>
          !s.isInitialized && s.winner == Some(Winner(t, s.threads[t].buffer)))
    && (forall t :: 0 <= t < |s.threads| && s.threads[t].SetReady? ==> s.buffer == s.threads[t].buffer)
    && (forall t :: 0 <= t < |s.threads| && s.threads[t].UserLoadBuffer? ==> s.isInitialized)
    && (forall t :: 0 <= t < |s.threads| && s.threads[t] == DropGate(true) ==>
          s.isInitialized && s.winner.Some? && s.winner.value.thread == t)
  }

  /** Every event is the winner's doing, or the use of the winner's buffer. */
  predicate EventOk(s: State, e: Event) {
    match e
    case Cleared(t, b, index) => s.winner == Some(Winner(t, b)) && index < s.n
    case Published(t, b) => s.winner == Some(Winner(t, b))
    case Uses(_, b) => s.isInitialized && s.winner.Some? && s.winner.value.buffer == b
    case InitOk(t) => s.isInitialized && s.winner.Some? && s.winner.value.thread == t
    case _ => true
  }

  /** The slot writes of the log, in order. */
  function ClearedSlots(log: seq<Event>): seq<nat> {
    if log == [] then []
    else
      var last := log[|log| - 1];
      ClearedSlots(log[..|log| - 1]) + if last.Cleared? then [last.index] else []
  }

  function UpTo(n: nat): seq<nat> { if n == 0 then [] else UpTo(n - 1) + [n - 1] }

  /** How many slots the winner has cleared. */
  function Progress(s: State): nat {
    if s.winner.None? then 0
    else if s.isInitialized || s.winner.value.thread >= |s.threads| then s.n
    else match s.threads[s.winner.value.thread]
      case ClearSlot(_, index) => index
      case _ => s.n
  }

  function Publications(log: seq<Event>): nat {
    if log == [] then 0 else Publications(log[..|log| - 1]) + if log[|log| - 1].Published? then 1 else 0
  }

  function Successes(log: seq<Event>): nat {
    if log == [] then 0 else Successes(log[..|log| - 1]) + if log[|log| - 1].InitOk? then 1 else 0
  }

  /** Whether the winner has published, and whether it has returned. */
  predicate HasPublished(s: State) {
    s.winner.Some? && (s.isInitialized
                       || (s.winner.value.thread < |s.threads| && s.threads[s.winner.value.thread].SetReady?))
  }

  predicate HasReturned(s: State) {
    s.isInitialized && s.winner.Some? && s.winner.value.thread < |s.threads|
    && s.threads[s.winner.value.thread] != DropGate(true)
  }

  function One(b: bool): nat { if b then 1 else 0 }

  ghost predicate LogInv(s: State) {
    && (forall i :: 0 <= i < |s.log| ==> EventOk(s, s.log[i]))
    && ClearedSlots(s.log) == UpTo(Progress(s))
    && Publications(s.log) == One(HasPublished(s)) && Successes(s.log) == One(HasReturned(s))
  }

  ghost predicate Inv(s: State) {
    && GateInv(s) && WinnerInv(s) && LogInv(s)
    && (forall t :: 0 <= t < |s.threads| && s.threads[t].ClearSlot? ==> s.threads[t].index <= s.n)
  }

  lemma LogAppend(log: seq<Event>, e: Event)
    ensures ClearedSlots(log + [e]) == ClearedSlots(log) + if e.Cleared? then [e.index] else []
    ensures Publications(log + [e]) == Publications(log) + One(e.Published?)
    ensures Successes(log + [e]) == Successes(log) + One(e.InitOk?)
  {
  }

  lemma InsideKeepsGate(s: State, t: nat)
    requires Inv(s) && t < |s.threads| && Inside(s.threads[t])
    ensures GateInv(Step(s, Go(t)))
  {
  }

  lemma OutsideKeepsGate(s: State, turn: Turn)
    requires Inv(s) && turn.thread < |s.threads| && !Inside(s.threads[turn.thread])
    ensures GateInv(Step(s, turn))
  {
  }

  lemma StepKeepsGate(s: State, turn: Turn)
    requires Inv(s)
    ensures GateInv(Step(s, turn))
  {
    if turn.thread < |s.threads| {
      if !Inside(s.threads[turn.thread]) {
        OutsideKeepsGate(s, turn);
      } else if turn.Go? {
        InsideKeepsGate(s, turn.thread);
      }
    }
  }

  /** While a thread is inside the gate, any building thread is that thread. */
  lemma OneInside(s: State, t: nat)
    requires Inv(s) && t < |s.threads| && Inside(s.threads[t])
    ensures forall u :: 0 <= u < |s.threads| && u != t ==> !Inside(s.threads[u]) && !Building(s.threads[u])
    ensures s.winner.Some? && !s.isInitialized ==> s.winner.value.thread == t && Building(s.threads[t])
  {
  }

  lemma InsideKeepsWinner(s: State, turn: Turn)
    requires Inv(s) && turn.Go? && turn.thread < |s.threads| && Inside(s.threads[turn.thread])
    ensures WinnerInv(Step(s, turn))
  {
    OneInside(s, turn.thread);
  }

  /** A thread that is not building, before and after, leaves the winner's record alone. */
  lemma BystanderKeepsWinner(s: State, s': State, t: nat, pc: Pc)
    requires WinnerInv(s) && t < |s.threads| && !Building(s.threads[t]) && !Building(pc)
    requires (pc.UserLoadBuffer? ==> s.isInitialized) && pc != DropGate(true)
    requires s'.threads == s.threads[t := pc] && s'.winner == s.winner
    requires s'.isInitialized == s.isInitialized && s'.buffer == s.buffer
    ensures WinnerInv(s')
  {
  }

  lemma OutsideKeepsWinner(s: State, turn: Turn)
    requires Inv(s) && turn.thread < |s.threads| && !Inside(s.threads[turn.thread])
    ensures WinnerInv(Step(s, turn))
  {
    var s' := Step(s, turn);
    if s' != s {
      BystanderKeepsWinner(s, s', turn.thread, s'.threads[turn.thread]);
    }
  }

  lemma StepKeepsWinner(s: State, turn: Turn)
    requires Inv(s)
    ensures WinnerInv(Step(s, turn))
  {
    if turn.thread < |s.threads| {
      if !Inside(s.threads[turn.thread]) {
        OutsideKeepsWinner(s, turn);
      } else if turn.Go? {
        InsideKeepsWinner(s, turn);
      }
    }
  }

  /** At most one event is added, and the progress moves along with it. */
  ghost predicate LogMove(s: State, s': State) {
    if s'.log == s.log then Progress(s') == Progress(s)
    else |s'.log| == |s.log| + 1 &&
         var e := s'.log[|s.log|];
         && s'.log == s.log + [e] && EventOk(s', e)
         && if e.Cleared? then e.index == Progress(s)
            && Progress(s') == Progress(s) + 1 else Progress(s') == Progress(s)
  }

  lemma StepLogs(s: State, turn: Turn)
    requires Inv(s)
    ensures LogMove(s, Step(s, turn))
  {
    if turn.thread < |s.threads| && Inside(s.threads[turn.thread]) {
      OneInside(s, turn.thread);
    }
  }

  ghost predicate CountsMove(s: State, s': State) {
    if s'.log == s.log then HasPublished(s') == HasPublished(s) && HasReturned(s') == HasReturned(s)
    else |s'.log| == |s.log| + 1 &&
         var e := s'.log[|s.log|];
         && One(HasPublished(s')) == One(HasPublished(s)) + One(e.Published?)
         && One(HasReturned(s')) == One(HasReturned(s)) + One(e.InitOk?)
  }

  lemma InsideCounts(s: State, t: nat)
    requires Inv(s) && t < |s.threads| && Inside(s.threads[t])
    ensures CountsMove(s, Step(s, Go(t)))
  {
    OneInside(s, t);
  }

  lemma OutsideCounts(s: State, turn: Turn)
    requires Inv(s) && turn.thread < |s.threads| && !Inside(s.threads[turn.thread])
    ensures CountsMove(s, Step(s, turn))
  {
  }

  lemma OldEventsStayOk(s: State, turn: Turn, e: Event)
    requires Inv(s) && EventOk(s, e)
    ensures EventOk(Step(s, turn), e)
  {
    if turn.thread < |s.threads| && Inside(s.threads[turn.thread]) {
      OneInside(s, turn.thread);
    }
  }

  lemma StepCounts(s: State, turn: Turn)
    requires Inv(s)
    ensures CountsMove(s, Step(s, turn))
  {
    if turn.thread < |s.threads| {
      if !Inside(s.threads[turn.thread]) {
        OutsideCounts(s, turn);
      } else if turn.Go? {
        InsideCounts(s, turn.thread);
      }
    }
  }

  lemma EventsStayOk(s: State, turn: Turn)
    requires Inv(s)
    ensures var s' := Step(s, turn); forall i :: 0 <= i < |s'.log| ==> EventOk(s', s'.log[i])
  {
    var s' := Step(s, turn);
    StepLogs(s, turn);
    forall i | 0 <= i < |s'.log| ensures EventOk(s', s'.log[i]) {
      if i < |s.log| {
        OldEventsStayOk(s, turn, s.log[i]);
      }
    }
  }

  lemma MoveKeepsLog(s: State, s': State)
    requires LogInv(s) && LogMove(s, s') && CountsMove(s, s')
    requires forall i :: 0 <= i < |s'.log| ==> EventOk(s', s'.log[i])
    ensures LogInv(s')
  {
    if s'.log != s.log {
      LogAppend(s.log, s'.log[|s.log|]);
    }
  }

  lemma StepKeepsLog(s: State, turn: Turn)
    requires Inv(s)
    ensures LogInv(Step(s, turn))
  {
    StepLogs(s, turn);
    StepCounts(s, turn);
    EventsStayOk(s, turn);
    MoveKeepsLog(s, Step(s, turn));
  }

  lemma StepKeepsInv(s: State, turn: Turn)
    requires Inv(s)
    ensures Inv(Step(s, turn))
  {
    StepKeepsGate(s, turn);
    StepKeepsWinner(s, turn);
    StepKeepsLog(s, turn);
  }

  function Run(s: State, turns: seq<Turn>): State
    decreases |turns|
  {
    if turns == [] then s else Run(Step(s, turns[0]), turns[1..])
  }

  function Fresh(n: nat, threads: nat): State {
    State(n, false, false, 0, seq(threads, _ => Idle), None, None, [])
  }

  /** `later` keeps what `earlier` had settled: readiness, the published buffer and the winner never change. */
  predicate Settled(earlier: State, later: State) {
    earlier.isInitialized ==> later.isInitialized && later.buffer == earlier.buffer && later.winner == earlier.winner
  }

  lemma {:induction false} RunKeepsInv(s: State, turns: seq<Turn>)
    requires Inv(s)
    ensures Inv(Run(s, turns)) && Settled(s, Run(s, turns))
    decreases |turns|
  {
    if turns != [] {
      StepKeepsInv(s, turns[0]);
      assert Settled(s, Step(s, turns[0])) by {
        assert turns[0].thread < |s.threads| && s.isInitialized ==> !Building(s.threads[turns[0].thread]);
      }
      RunKeepsInv(Step(s, turns[0]), turns[1..]);
    }
  }

  /**
   One caller at most has written slots, each once, and published, once; only it has succeeded, once; every use
   is of its buffer.
   */
  ghost predicate OneShot(s: State) {
    && (forall i, j :: 0 <= i < |s.log| && 0 <= j < |s.log| && Writes(s.log[i]) && Writes(s.log[j]) ==>
          s.log[i].thread == s.log[j].thread && s.log[i].buffer == s.log[j].buffer)
    && (forall i, j :: 0 <= i < |s.log| && 0 <= j < |s.log| && Writes(s.log[i]) && s.log[j].InitOk? ==>
          s.log[i].thread == s.log[j].thread)
    && Publications(s.log) <= 1 && Successes(s.log) <= 1
    && (s.isInitialized ==> ClearedSlots(s.log) == UpTo(s.n) && Publications(s.log) == 1)
    && (forall i :: 0 <= i < |s.log| && s.log[i].Uses? ==> s.isInitialized && s.log[i].buffer == s.buffer)
    && (forall i :: 0 <= i < |s.log| && Writes(s.log[i]) && s.isInitialized ==> s.log[i].buffer == s.buffer)
  }

  lemma InvIsOneShot(s: State)
    requires Inv(s)
    ensures OneShot(s)
  {
    forall i | 0 <= i < |s.log| ensures EventOk(s, s.log[i]) {
    }
  }

  /** On every run initialization is one-shot, and what it settled is never changed by any run after it. */
  lemma InitializationIsOneShot(n: nat, threads: nat, before: seq<Turn>, after: seq<Turn>)
    ensures var s := Run(Fresh(n, threads), before); OneShot(s) && Settled(s, Run(s, after))
  {
    RunKeepsInv(Fresh(n, threads), before);
    var s := Run(Fresh(n, threads), before);
    InvIsOneShot(s);
    RunKeepsInv(s, after);
  }

  /** What only the initializing call does: write a slot, or publish. */
  predicate Writes(e: Event) { e.Cleared? || e.Published? }
}
