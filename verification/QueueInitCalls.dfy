/**
 What every call of `init`, and every check of readiness, is answered, and that each is answered within a fixed
 number of its own steps whatever the other threads do.
 */
module QueueInitCalls {
  import opened QueueInit

  // ---- Answers ----

  ghost predicate Occupied(s: State) { exists u :: 0 <= u < |s.threads| && Inside(s.threads[u]) }

  /** What a step of thread `t` reports, from the state of the queue and who is initializing it. */
  ghost function Answer(s: State, t: nat): seq<Event>
    requires t < |s.threads|
  {
    match s.threads[t]
    case LoadReady(_) => if s.isInitialized then [AlreadyInitialized(t)] else []
    case TakeGate(_) => if Occupied(s) then [AlreadyInitialized(t)] else []
    case DropGate(ok) => [if ok then InitOk(t) else AlreadyInitialized(t)]
    case UserLoadReady => if s.isInitialized then [] else [NotInitialized(t)]
    case UserLoadBuffer => [Uses(t, s.buffer)]
    case _ => []
  }

  predicate Answers(e: Event) { !Writes(e) }

  /** The answers thread `t` got, in order. */
  function Told(log: seq<Event>, t: nat): seq<Event> {
    if log == [] then []
    else
      var last := log[|log| - 1];
      Told(log[..|log| - 1], t) + if Answers(last) && last.thread == t then [last] else []
  }

  lemma ToldAppend(log: seq<Event>, e: Event, t: nat)
    ensures Told(log + [e], t) == Told(log, t) + if Answers(e) && e.thread == t then [e] else []
  {
  }

  /** A step logs at most one event, its own thread's. */
  lemma StepAppends(s: State, turn: Turn)
    ensures var s' := Step(s, turn);
            s'.log == s.log || (|s'.log| == |s.log| + 1 && s'.log[..|s.log|] == s.log
                                && s'.log[|s.log|].thread == turn.thread)
  {
  }

  lemma ToldAfter(log: seq<Event>, log': seq<Event>, t: nat)
    requires |log'| == |log| + 1 && log'[..|log|] == log
    ensures Told(log', t) == Told(log, t) + var e := log'[|log|]; if Answers(e) && e.thread == t then [e] else []
  {
    assert log' == log + [log'[|log|]];
    ToldAppend(log, log'[|log|], t);
  }

  lemma AnswerIsLogged(s: State, t: nat)
    requires Inv(s) && t < |s.threads|
    ensures var s' := Step(s, Go(t));
            if Answer(s, t) != [] then s'.log == s.log + Answer(s, t) && Answers(Answer(s, t)[0])
            else s'.log != s.log ==> |s'.log| == |s.log| + 1 && Writes(s'.log[|s.log|])
    ensures !s.threads[t].Idle? ==> (Step(s, Go(t)).threads[t].Idle? <==> Answer(s, t) != [])
  {
  }

  lemma AnswersAt(s: State, t: nat)
    requires Inv(s) && t < |s.threads|
    ensures Told(Step(s, Go(t)).log, t) == Told(s.log, t) + Answer(s, t)
    ensures !s.threads[t].Idle? ==> (Step(s, Go(t)).threads[t].Idle? <==> Answer(s, t) != [])
  {
    AnswerIsLogged(s, t);
    StepAppends(s, Go(t));
    if Step(s, Go(t)).log != s.log {
      ToldAfter(s.log, Step(s, Go(t)).log, t);
    }
  }

  lemma FirstWins(s: State, t: nat)
    requires Inv(s) && t < |s.threads| && s.threads[t].ReloadReady?
    ensures Step(s, Go(t)).threads[t].ClearSlot? <==> s.winner.None?
  {
  }

  /**
   At every point of every run: a caller is refused exactly when the queue is ready or another caller is inside,
   a user exactly when the queue is not ready; whoever passes both checks first goes on to initialize, and a
   step reports nothing else.
   */
  lemma AnswersOnEveryRun(n: nat, threads: nat, turns: seq<Turn>, t: nat)
    requires t < |Run(Fresh(n, threads), turns).threads|
    ensures var s := Run(Fresh(n, threads), turns);
            var s' := Step(s, Go(t));
            && Told(s'.log, t) == Told(s.log, t) + Answer(s, t) && t < |s'.threads|
            && (!s.threads[t].Idle? ==> (s'.threads[t].Idle? <==> Answer(s, t) != []))
            && (s.threads[t].ReloadReady? ==> (s'.threads[t].ClearSlot? <==> s.winner.None?))
  {
    RunKeepsInv(Fresh(n, threads), turns);
    var s := Run(Fresh(n, threads), turns);
    AnswersAt(s, t);
    StepKeepsSize(s, Go(t));
    if s.threads[t].ReloadReady? {
      FirstWins(s, t);
    }
  }

  // ---- Every call ends ----

  /** A bound on the steps a call still takes. */
  function Left(pc: Pc, n: nat): nat {
    match pc
    case Idle => 0
    case LoadReady(_) => n + 7
    case TakeGate(_) => n + 6
    case ReloadReady(_) => n + 5
    case ClearSlot(_, index) => if index < n then n - index + 4 else 4
    case PublishBuffer(_) => 3
    case SetReady(_) => 2
    case DropGate(_) => 1
    case UserLoadReady => 2
    case UserLoadBuffer => 1
  }

  /** The thread has won, and will report success. */
  predicate Winning(pc: Pc) { Building(pc) || pc == DropGate(true) }

  lemma OwnStep(s: State, t: nat)
    requires Inv(s) && t < |s.threads| && !s.threads[t].Idle?
    ensures var (pc, pc') := (s.threads[t], Step(s, Go(t)).threads[t]);
            pc'.Idle? || (Left(pc', s.n) < Left(pc, s.n) && (Winning(pc) ==> Winning(pc')))
  {
  }

  lemma OthersKeepPc(s: State, turn: Turn, t: nat)
    requires t < |s.threads| && !s.threads[t].Idle? && turn != Go(t)
    ensures t < |Step(s, turn).threads| && Step(s, turn).threads[t] == s.threads[t]
    ensures turn.thread == t ==> Step(s, turn) == s
  {
  }

  lemma OthersLeaveCall(s: State, turn: Turn, t: nat)
    requires t < |s.threads| && !s.threads[t].Idle? && turn != Go(t)
    ensures var s' := Step(s, turn);
            t < |s'.threads| && s'.threads[t] == s.threads[t] && Told(s'.log, t) == Told(s.log, t)
  {
    OthersKeepPc(s, turn, t);
    StepAppends(s, turn);
    var log := Step(s, turn).log;
    if log != s.log {
      ToldAfter(s.log, log, t);
    }
  }

  function OwnTurns(turns: seq<Turn>, t: nat): nat
    decreases |turns|
  {
    if turns == [] then 0 else (if turns[0] == Go(t) then 1 else 0) + OwnTurns(turns[1..], t)
  }

  /** A call of `init` is still about the buffer it was given, up to the report of its success. */
  predicate OnBuffer(s: State, t: nat, base: nat)
    requires t < |s.threads|
  {
    match s.threads[t]
    case LoadReady(b) => b == base
    case TakeGate(b) => b == base
    case ReloadReady(b) => b == base
    case ClearSlot(b, _) => b == base
    case PublishBuffer(b) => b == base
    case SetReady(b) => b == base
    case DropGate(ok) => ok ==> s.isInitialized && s.buffer == base
    case _ => true
  }

  lemma BufferStays(s: State, turn: Turn, t: nat, base: nat)
    requires Inv(s) && t < |s.threads| && OnBuffer(s, t, base) && !s.threads[t].Idle?
    ensures t < |Step(s, turn).threads| && OnBuffer(Step(s, turn), t, base)
    ensures s.threads[t] == DropGate(true) ==> Step(s, turn).isInitialized && Step(s, turn).buffer == base
  {
    if turn != Go(t) {
      OthersKeepPc(s, turn, t);
    }
  }

  /**
   After the first `k` of `turns` the call of thread `t` has ended with one answer, and success means the queue is
   ready with the buffer `base`.
   */
  ghost predicate EndsWithin(s: State, turns: seq<Turn>, t: nat, base: nat, won: bool, k: int) {
    && 0 <= k <= |turns| && var e := Run(s, turns[..k]);
    && t < |e.threads| && e.threads[t].Idle?
    && exists answer :: Told(e.log, t) == Told(s.log, t) + [answer] && (won ==> answer == InitOk(t))
                        && (answer == InitOk(t) ==> e.isInitialized && e.buffer == base)
  }

  lemma StepKeepsSize(s: State, turn: Turn)
    ensures Step(s, turn).n == s.n && |Step(s, turn).threads| == |s.threads|
  {
  }

  lemma EndsLater(s: State, turns: seq<Turn>, t: nat, base: nat, won: bool, k: nat)
    requires turns != [] && EndsWithin(Step(s, turns[0]), turns[1..], t, base, won, k)
    requires Told(Step(s, turns[0]).log, t) == Told(s.log, t)
    ensures EndsWithin(s, turns, t, base, won, k + 1)
  {
    assert turns[..k + 1][1..] == turns[1..][..k];
    assert Run(s, turns[..k + 1]) == Run(Step(s, turns[0]), turns[1..][..k]);
  }

  /** One turn of anyone, seen from the call thread `t` is in. */
  lemma TurnOfCall(s: State, turn: Turn, t: nat)
    requires Inv(s) && t < |s.threads| && !s.threads[t].Idle?
    ensures var (pc, s') := (s.threads[t], Step(s, turn));
            && Inv(s') && t < |s'.threads| && s'.n == s.n
            && if s'.threads[t].Idle?
               then turn == Go(t) && Answer(s, t) != [] && Told(s'.log, t) == Told(s.log, t) + Answer(s, t)
               else Told(s'.log, t) == Told(s.log, t) && (Winning(pc) ==> Winning(s'.threads[t]))
                    && Left(s'.threads[t], s.n) + (if turn == Go(t) then 1 else 0) <= Left(pc, s.n)
  {
    StepKeepsInv(s, turn);
    StepKeepsSize(s, turn);
    if turn == Go(t) {
      OwnStep(s, t);
      AnswersAt(s, t);
    } else {
      OthersLeaveCall(s, turn, t);
    }
  }

  lemma AnswerIsOne(s: State, t: nat)
    requires t < |s.threads| && Answer(s, t) != []
    ensures exists answer :: Answer(s, t) == [answer] && (Winning(s.threads[t]) ==> answer == InitOk(t))
                             && (answer == InitOk(t) ==> s.threads[t] == DropGate(true))
  {
    assert Answer(s, t) == [Answer(s, t)[0]];
  }

  lemma EndsNow(s: State, turns: seq<Turn>, t: nat, base: nat, won: bool)
    requires turns != [] && t < |s.threads| && t < |Step(s, turns[0]).threads| && Step(s, turns[0]).threads[t].Idle?
    requires Answer(s, t) != [] && Told(Step(s, turns[0]).log, t) == Told(s.log, t) + Answer(s, t)
    requires won ==> Winning(s.threads[t])
    requires s.threads[t] == DropGate(true) ==> Step(s, turns[0]).isInitialized && Step(s, turns[0]).buffer == base
    ensures EndsWithin(s, turns, t, base, won, 1)
  {
    AnswerIsOne(s, t);
    assert turns[..1][1..] == [] && Run(s, turns[..1]) == Step(s, turns[0]);
  }

  lemma {:induction false} CallEnds(s: State, turns: seq<Turn>, t: nat, base: nat, won: bool) returns (k: nat)
    requires Inv(s) && t < |s.threads| && !s.threads[t].Idle? && OwnTurns(turns, t) >= Left(s.threads[t], s.n)
    requires (won ==> Winning(s.threads[t])) && OnBuffer(s, t, base)
    ensures EndsWithin(s, turns, t, base, won, k)
    decreases |turns|
  {
    BufferStays(s, turns[0], t, base);
    TurnOfCall(s, turns[0], t);
    if Step(s, turns[0]).threads[t].Idle? {
      EndsNow(s, turns, t, base, won);
      k := 1;
    } else {
      var rest := CallEnds(Step(s, turns[0]), turns[1..], t, base, won);
      EndsLater(s, turns, t, base, won, rest);
      k := rest + 1;
    }
  }

  lemma CallStarts(s: State, call: Turn, base: nat)
    requires !call.Go? && call.thread < |s.threads| && s.threads[call.thread].Idle?
    requires call.StartInit? ==> call.base == base
    ensures var s' := Step(s, call);
            && s'.n == s.n && call.thread < |s'.threads| && OnBuffer(s', call.thread, base)
            && !s'.threads[call.thread].Idle? && Left(s'.threads[call.thread], s.n) <= s.n + 7
  {
  }

  lemma {:induction false} SizeStays(s: State, turns: seq<Turn>)
    ensures Run(s, turns).n == s.n
    decreases |turns|
  {
    if turns != [] {
      StepKeepsSize(s, turns[0]);
      SizeStays(Step(s, turns[0]), turns[1..]);
    }
  }

  /**
   On every run a call of `init`, or of an operation on the queue, by an idle thread ends within n + 7 of its own
   steps, whatever the other threads do, with exactly one answer; an `init` that succeeds has made the queue ready
   with the buffer it was given.
   */
  lemma CallsAreAnswered(n: nat, threads: nat, before: seq<Turn>, call: Turn, turns: seq<Turn>)
    requires !call.Go? && OwnTurns(turns, call.thread) >= n + 7
    requires var s := Run(Fresh(n, threads), before); call.thread < |s.threads| && s.threads[call.thread].Idle?
    ensures var base := if call.StartInit? then call.base else 0;
            exists k :: EndsWithin(Step(Run(Fresh(n, threads), before), call), turns, call.thread, base, false, k)
  {
    var (s, base) := (Run(Fresh(n, threads), before), if call.StartInit? then call.base else 0);
    RunKeepsInv(Fresh(n, threads), before);
    SizeStays(Fresh(n, threads), before);
    StepKeepsInv(s, call);
    CallStarts(s, call, base);
    var k := CallEnds(Step(s, call), turns, call.thread, base, false);
  }

  /** On every run the caller that passed both checks ends with success within n + 4 of its own steps. */
  lemma WinnerSucceeds(n: nat, threads: nat, before: seq<Turn>, turns: seq<Turn>, t: nat)
    requires var s := Run(Fresh(n, threads), before); t < |s.threads| && Building(s.threads[t])
    requires OwnTurns(turns, t) >= n + 4
    ensures var s := Run(Fresh(n, threads), before);
            exists k :: EndsWithin(s, turns, t, s.threads[t].buffer, true, k)
  {
    var s := Run(Fresh(n, threads), before);
    RunKeepsInv(Fresh(n, threads), before);
    SizeStays(Fresh(n, threads), before);
    assert Left(s.threads[t], n) <= n + 4;
    var k := CallEnds(s, turns, t, s.threads[t].buffer, true);
  }
}
