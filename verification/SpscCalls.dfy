/**
 What every call on the SPSC queue and the ring buffer comes to, whatever the other side does meanwhile: a
 push, pop or peek is answered within a fixed number of its own steps, and each slot's counter counts.
 */
module SpscCalls {
  import opened Words
  import opened WrappingQueue
  import opened SpscQueue

  // ---- The slot counters ----

  /** How many of the first `pushes` pushes went to slot `i` of `n`. */
  function Visits(pushes: nat, n: nat, i: nat): nat
    requires n > 0
  {
    if pushes == 0 then 0 else Visits(pushes - 1, n, i) + if (pushes - 1) % n == i then 1 else 0
  }

  /** How far the push under way has moved the counter of slot `i`. */
  function Ahead<T>(m: Machine<T>, i: nat): nat
    requires WellSized(m)
  {
    if !Filling(m.p) || i != m.p.head % m.q.n then 0
    else if m.stamp.Odd? then 1
    else if m.stamp.Even? then 2 else 0
  }

  /** A slot's counter is twice the number of pushes to it, plus what the push under way has added. */
  predicate CounterOk<T>(m: Machine<T>, i: nat)
    requires WellSized(m) && i < m.q.n
  {
    m.counters[i] == Word(2 * Visits(|m.q.pushed|, m.q.n, i) + Ahead(m, i))
  }

  function Word(x: nat): nat { x % WORDS }

  ghost predicate CountersInv<T>(m: Machine<T>)
    requires WellSized(m)
  {
    && (forall i :: 0 <= i < m.q.n ==> CounterOk(m, i))
    && ((m.stamp.Loaded? || m.stamp.Odd?) && Filling(m.p) ==>
          m.stamp.sequence == Word(2 * Visits(|m.q.pushed|, m.q.n, m.p.head % m.q.n)))
  }

  lemma WordPlus(x: nat, d: nat)
    requires d <= 2
    ensures Word(x + d) == if Word(x) + d < WORDS then Word(x) + d else Word(x) + d - WORDS
  {
    var k := x / WORDS;
    assert x == WORDS * k + Word(x);
  }

  lemma EvenWord(v: nat)
    ensures Word(2 * v) % 2 == 0 && Word(2 * v) <= WORDS - 2
  {
    var k := 2 * v / WORDS;
    assert 2 * v == WORDS * k + Word(2 * v);
  }

  /** The odd store and the even store, on the counter of a slot pushed to `v` times. */
  lemma StampStores(v: nat)
    ensures OrOne((Word(2 * v) + 1) % WORDS) == Word(2 * v + 1)
    ensures AndNotOne((Word(2 * v) + 2) % WORDS) == Word(2 * v + 2) == Word(2 * (v + 1))
  {
    EvenWord(v);
    WordPlus(2 * v, 1);
    WordPlus(2 * v, 2);
  }

  /** A step that touches neither counters nor the number of pushes. */
  lemma SameCounters<T>(m: Machine<T>, m': Machine<T>)
    requires WellSized(m) && WellSized(m') && CountersInv(m)
    requires m'.q.n == m.q.n && m'.counters == m.counters && m'.q.pushed == m.q.pushed
    requires forall i :: 0 <= i < m.q.n ==> Ahead(m', i) == Ahead(m, i)
    requires (m'.stamp.Loaded? || m'.stamp.Odd?) && Filling(m'.p) ==>
               m'.stamp.sequence == Word(2 * Visits(|m.q.pushed|, m.q.n, m'.p.head % m.q.n))
    ensures CountersInv(m')
  {
    forall i | 0 <= i < m.q.n ensures CounterOk(m', i) {
      assert CounterOk(m, i);
    }
  }

  lemma StampKeepsCounters<T>(m: Machine<T>)
    requires MachineInv(m) && CountersInv(m)
    requires (m.stamp.Loaded? && m.p.PWrite?) || (m.stamp.Odd? && m.p.PPublish?)
    ensures WellSized(ProducerTurn(m)) && CountersInv(ProducerTurn(m))
  {
    var (m', at) := (ProducerTurn(m), m.p.head % m.q.n);
    StampStores(Visits(|m.q.pushed|, m.q.n, at));
    forall i | 0 <= i < m.q.n ensures CounterOk(m', i) {
      assert CounterOk(m, i);
    }
  }

  lemma PublishKeepsCounters<T>(m: Machine<T>)
    requires MachineInv(m) && CountersInv(m) && m.p.PPublish? && m.stamp.Even?
    ensures WellSized(ProducerTurn(m)) && CountersInv(ProducerTurn(m))
  {
    var (m', at) := (ProducerTurn(m), m.p.head % m.q.n);
    CountsSized(m.q);
    StampStores(Visits(|m.q.pushed|, m.q.n, at));
    forall i | 0 <= i < m.q.n ensures CounterOk(m', i) {
      assert CounterOk(m, i);
    }
  }

  lemma ProducerKeepsCounters<T>(m: Machine<T>)
    requires MachineInv(m) && CountersInv(m)
    ensures WellSized(ProducerTurn(m)) && CountersInv(ProducerTurn(m))
  {
    if (m.stamp.Loaded? && m.p.PWrite?) || (m.stamp.Odd? && m.p.PPublish?) {
      StampKeepsCounters(m);
    } else if m.p.PPublish? {
      PublishKeepsCounters(m);
    } else {
      if m.p.PWrite? {
        assert CounterOk(m, m.p.head % m.q.n);
      }
      SameCounters(m, ProducerTurn(m));
    }
  }

  lemma StepKeepsCounters<T>(m: Machine<T>, turn: Turn<T>)
    requires MachineInv(m) && CountersInv(m)
    ensures WellSized(Step(m, turn)) && CountersInv(Step(m, turn))
  {
    if turn.Produce? {
      ProducerKeepsCounters(m);
    } else {
      SameCounters(m, Step(m, turn));
    }
  }

  // ---- What each side was told ----

  datatype Side = Producer | Consumer

  function Teller<T>(o: Out<T>): Side { if o.PushOk? || o.PushFull? then Producer else Consumer }

  /** The answers one side got, in order. */
  function Told<T>(out: seq<Out<T>>, side: Side): seq<Out<T>> {
    if out == [] then []
    else
      var last := out[|out| - 1];
      Told(out[..|out| - 1], side) + if Teller(last) == side then [last] else []
  }

  lemma ToldAppend<T>(out: seq<Out<T>>, o: Out<T>, side: Side)
    ensures Told(out + [o], side) == Told(out, side) + if Teller(o) == side then [o] else []
  {
  }

  predicate IsTurnOf<T>(turn: Turn<T>, side: Side) { if side == Producer then turn.Produce? else turn.Consume? }

  /** How many of `turns` are steps of one side. */
  function Turns<T>(turns: seq<Turn<T>>, side: Side): nat
    decreases |turns|
  {
    if turns == [] then 0
    else (if IsTurnOf(turns[0], side) then 1 else 0) + Turns(turns[1..], side)
  }

  // ---- Push ----

  /** How many steps a push that found room still takes. */
  function PushLeft<T>(m: Machine<T>): nat {
    if m.p.PWrite? then
      match m.stamp
      case Unstamped => 5
      case Loaded(_) => 4
      case _ => 3
    else if m.p.PPublish? then if m.stamp.Odd? then 2 else 1
    else 0
  }

  lemma FillTurn<T>(m: Machine<T>)
    requires MachineInv(m) && Filling(m.p)
    ensures var m' := ProducerTurn(m);
            && PushLeft(m') == PushLeft(m) - 1
            && (PushLeft(m) > 1 ==> Filling(m'.p) && m'.p.item == m.p.item && m'.out == m.out)
            && (PushLeft(m) == 1 ==> m'.out == m.out + [PushOk(m.p.item)])
  {
  }

  /** The step told its own side at most one thing. */
  ghost predicate TellsOnly<T>(out: seq<Out<T>>, out': seq<Out<T>>, side: Side) {
    out' == out || (|out'| == |out| + 1 && out' == out + [out'[|out|]] && Teller(out'[|out|]) == side)
  }

  lemma TellsNoOther<T>(out: seq<Out<T>>, out': seq<Out<T>>, side: Side, other: Side)
    requires TellsOnly(out, out', side) && side != other
    ensures Told(out', other) == Told(out, other)
  {
    if out' != out {
      ToldAppend(out, out'[|out|], other);
    }
  }

  lemma ConsumerLeavesPush<T>(m: Machine<T>)
    requires WellSized(m)
    ensures var m' := ConsumerTurn(m); m'.p == m.p && m'.stamp == m.stamp && TellsOnly(m.out, m'.out, Consumer)
  {
  }

  /** The consumer and the start of other calls leave a push where it is. */
  lemma PushWaits<T>(m: Machine<T>, turn: Turn<T>)
    requires WellSized(m) && !turn.Produce?
    ensures var m' := Step(m, turn);
            && (!m.p.PIdle? ==> m'.p == m.p) && m'.stamp == m.stamp && Told(m'.out, Producer) == Told(m.out, Producer)
  {
    if turn.Consume? {
      ConsumerLeavesPush(m);
      TellsNoOther(m.out, ConsumerTurn(m).out, Consumer, Producer);
    }
  }

  lemma {:induction false} NoProducerTurns<T>(m: Machine<T>, turns: seq<Turn<T>>)
    requires MachineInv(m) && Turns(turns, Producer) == 0
    ensures Told(Run(m, turns).out, Producer) == Told(m.out, Producer)
    ensures !m.p.PIdle? ==> Run(m, turns).p == m.p
    decreases |turns|
  {
    if turns != [] {
      PushWaits(m, turns[0]);
      StepKeepsInv(m, turns[0]);
      NoProducerTurns(Step(m, turns[0]), turns[1..]);
    }
  }

  /** A push that found room is answered with its item after so many of its own steps, whatever else happens. */
  lemma {:induction false} FillCompletes<T>(m: Machine<T>, turns: seq<Turn<T>>)
    requires MachineInv(m) && Filling(m.p) && Turns(turns, Producer) == PushLeft(m)
    ensures Told(Run(m, turns).out, Producer) == Told(m.out, Producer) + [PushOk(m.p.item)]
    decreases |turns|
  {
    var m' := Step(m, turns[0]);
    StepKeepsInv(m, turns[0]);
    if !turns[0].Produce? {
      PushWaits(m, turns[0]);
      FillCompletes(m', turns[1..]);
    } else {
      FillTurn(m);
      if PushLeft(m) == 1 {
        NoProducerTurns(m', turns[1..]);
        ToldAppend(m.out, PushOk(m.p.item), Producer);
      } else {
        FillCompletes(m', turns[1..]);
      }
    }
  }

  lemma {:induction false} PushLooks<T>(m: Machine<T>, load: seq<Turn<T>>)
    requires MachineInv(m) && m.p.PLoadHead? && Turns(load, Producer) == 1
    ensures var m' := Run(m, load);
            m'.p.PLoadTail? && m'.p.item == m.p.item && Told(m'.out, Producer) == Told(m.out, Producer)
    decreases |load|
  {
    StepKeepsInv(m, load[0]);
    if load[0].Produce? {
      NoProducerTurns(Step(m, load[0]), load[1..]);
    } else {
      PushWaits(m, load[0]);
      PushLooks(Step(m, load[0]), load[1..]);
    }
  }

  lemma LookDecides<T>(m: Machine<T>)
    requires MachineInv(m) && m.p.PLoadTail?
    ensures var m' := Step(m, Produce);
            if |Pushes(m.out)| == |Pops(m.out)| + m.q.n then m'.out == m.out + [PushFull]
            else m'.out == m.out && Filling(m'.p) && m'.p.item == m.p.item && PushLeft(m') == 5
  {
    FullAndEmptyAreExact(m.q, m.p, m.c);
  }

  /**
   A push called at `m`: after its first step it is about to look for room, and with its second either the
   queue is full at that moment and it says so, or five more of its steps store the item and say so.
   */
  ghost predicate PushAnswered<T>(m: Machine<T>, item: T, load: seq<Turn<T>>, rest: seq<Turn<T>>) {
    var looking := Run(Step(m, StartPush(item)), load);
    var found := Step(looking, Produce);
    && looking.p.PLoadTail? && Told(looking.out, Producer) == Told(m.out, Producer)
    && if |Pushes(looking.out)| == |Pops(looking.out)| + looking.q.n
       then Told(found.out, Producer) == Told(m.out, Producer) + [PushFull]
       else Told(Run(found, rest).out, Producer) == Told(m.out, Producer) + [PushOk(item)]
  }

  lemma PushAnsweredAt<T>(m: Machine<T>, item: T, load: seq<Turn<T>>, rest: seq<Turn<T>>)
    requires MachineInv(m) && m.p.PIdle? && Turns(load, Producer) == 1 && Turns(rest, Producer) == 5
    ensures PushAnswered(m, item, load, rest)
  {
    var called := Step(m, StartPush(item));
    StepKeepsInv(m, StartPush(item));
    PushLooks(called, load);
    RunKeepsInv(called, load);
    var looking := Run(called, load);
    LookDecides(looking);
    if |Pushes(looking.out)| == |Pops(looking.out)| + looking.q.n {
      ToldAppend(looking.out, PushFull, Producer);
    } else {
      StepKeepsInv(looking, Produce);
      FillCompletes(Step(looking, Produce), rest);
    }
  }

  /** On every run a push is answered so, whatever the consumer does before, between and after its steps. */
  lemma PushIsAnswered<T>(cells: seq<Cell<T>>, blank: T, before: seq<Turn<T>>, item: T, load: seq<Turn<T>>,
                          rest: seq<Turn<T>>)
    requires Capacity(|cells|) && Turns(load, Producer) == 1 && Turns(rest, Producer) == 5
    requires Run(Fresh(cells, blank), before).p.PIdle?
    ensures PushAnswered(Run(Fresh(cells, blank), before), item, load, rest)
  {
    FreshInv(cells, blank);
    RunKeepsInv(Fresh(cells, blank), before);
    PushAnsweredAt(Run(Fresh(cells, blank), before), item, load, rest);
  }

  // ---- Pop and peek ----

  /** How many steps a pop or peek that found an item still takes. */
  function PopLeft<T>(m: Machine<T>): nat {
    match m.c
    case CRead(_) => (if m.guard.First? then 2 else 3) + if m.peeking then 0 else 3
    case CClear(_, _) => if m.guard.Second? then 3 else if m.peeking then 1 else 4
    case CRelease(_, _) => if m.guard.Second? then 2 else 1
    case _ => 0
  }

  /** What it will say: the oldest item not yet popped. */
  function Oldest<T>(m: Machine<T>): Out<T>
    requires |m.q.popped| < |m.q.pushed|
  {
    var item := m.q.pushed[|m.q.popped|];
    if m.peeking then PeekSome(item) else PopSome(item)
  }

  lemma ReadTurn<T>(m: Machine<T>)
    requires MachineInv(m) && Emptying(m.c)
    ensures var m' := ConsumerTurn(m);
            && PopLeft(m') == PopLeft(m) - 1
            && (PopLeft(m) > 1 ==>
                  Emptying(m'.c) && m'.q.popped == m.q.popped && m'.q.pushed == m.q.pushed && m'.out == m.out
                  && m'.peeking == m.peeking)
            && (PopLeft(m) == 1 ==> m'.out == m.out + [Oldest(m)])
  {
    CountersNeverTear(m);
    ConsumerKeepsInv(m.q, m.p, m.c);
  }

  lemma ProducerLeavesPop<T>(m: Machine<T>)
    requires WellSized(m)
    ensures var m' := ProducerTurn(m);
            && m'.c == m.c && m'.guard == m.guard && m'.peeking == m.peeking && m'.q.popped == m.q.popped
            && m.q.pushed <= m'.q.pushed && TellsOnly(m.out, m'.out, Producer)
  {
  }

  /** The producer and the start of other calls leave a pop or peek where it is. */
  lemma PopWaits<T>(m: Machine<T>, turn: Turn<T>)
    requires WellSized(m) && !turn.Consume? && !m.c.CIdle?
    ensures var m' := Step(m, turn);
            && m'.c == m.c && m'.guard == m.guard && m'.peeking == m.peeking && m'.q.popped == m.q.popped
            && m.q.pushed <= m'.q.pushed && Told(m'.out, Consumer) == Told(m.out, Consumer)
  {
    if turn.Produce? {
      ProducerLeavesPop(m);
      TellsNoOther(m.out, ProducerTurn(m).out, Producer, Consumer);
    }
  }

  /** Without a step of the consumer nothing is told to it, and a call it is in stays where it is. */
  lemma {:induction false} NoConsumerTurns<T>(m: Machine<T>, turns: seq<Turn<T>>)
    requires MachineInv(m) && Turns(turns, Consumer) == 0
    ensures Told(Run(m, turns).out, Consumer) == Told(m.out, Consumer)
    ensures !m.c.CIdle? ==> Run(m, turns).c == m.c && Run(m, turns).peeking == m.peeking
    decreases |turns|
  {
    if turns != [] {
      StepKeepsInv(m, turns[0]);
      if m.c.CIdle? && turns[0].Produce? {
        ProducerLeavesPop(m);
        TellsNoOther(m.out, ProducerTurn(m).out, Producer, Consumer);
      } else if !m.c.CIdle? {
        PopWaits(m, turns[0]);
      }
      NoConsumerTurns(Step(m, turns[0]), turns[1..]);
    }
  }

  /** One turn of anyone, seen from a pop or peek that found an item. */
  lemma TurnOfRead<T>(m: Machine<T>, turn: Turn<T>)
    requires MachineInv(m) && Emptying(m.c)
    ensures var m' := Step(m, turn);
            && MachineInv(m')
            && if turn.Consume? && PopLeft(m) == 1
               then Told(m'.out, Consumer) == Told(m.out, Consumer) + [Oldest(m)]
               else Emptying(m'.c) && Oldest(m') == Oldest(m) && Told(m'.out, Consumer) == Told(m.out, Consumer)
                    && PopLeft(m') == PopLeft(m) - if turn.Consume? then 1 else 0
  {
    StepKeepsInv(m, turn);
    if turn.Consume? {
      ReadTurn(m);
      ToldAppend(m.out, Oldest(m), Consumer);
    } else {
      PopWaits(m, turn);
    }
  }

  /** A pop or peek that found an item is answered with it after so many of its own steps, whatever else happens. */
  lemma {:induction false} ReadCompletes<T>(m: Machine<T>, turns: seq<Turn<T>>)
    requires MachineInv(m) && Emptying(m.c) && Turns(turns, Consumer) == PopLeft(m)
    ensures Told(Run(m, turns).out, Consumer) == Told(m.out, Consumer) + [Oldest(m)]
    decreases |turns|
  {
    TurnOfRead(m, turns[0]);
    if turns[0].Consume? && PopLeft(m) == 1 {
      NoConsumerTurns(Step(m, turns[0]), turns[1..]);
    } else {
      ReadCompletes(Step(m, turns[0]), turns[1..]);
    }
  }

  lemma {:induction false} PopLooks<T>(m: Machine<T>, load: seq<Turn<T>>)
    requires MachineInv(m) && m.c.CLoadTail? && Turns(load, Consumer) == 1
    ensures var m' := Run(m, load);
            m'.c.CLoadHead? && m'.peeking == m.peeking && Told(m'.out, Consumer) == Told(m.out, Consumer)
    decreases |load|
  {
    StepKeepsInv(m, load[0]);
    if load[0].Consume? {
      NoConsumerTurns(Step(m, load[0]), load[1..]);
    } else {
      PopWaits(m, load[0]);
      PopLooks(Step(m, load[0]), load[1..]);
    }
  }

  lemma PopDecides<T>(m: Machine<T>)
    requires MachineInv(m) && m.c.CLoadHead?
    ensures var m' := Step(m, Consume);
            if |m.q.pushed| == |m.q.popped| then m'.out == m.out + [NothingThere]
            else m'.out == m.out && Emptying(m'.c) && m'.q == m.q && m'.peeking == m.peeking
                 && PopLeft(m') == if m.peeking then 3 else 6
  {
    FullAndEmptyAreExact(m.q, m.p, m.c);
  }

  /**
   A pop or peek called at `m`: after its first step it is about to look for an item, and with its second
   either the queue is empty at that moment and it says so, or six more of its steps (three for a peek) return
   the oldest item.
   */
  ghost predicate PopAnswered<T>(m: Machine<T>, peek: bool, load: seq<Turn<T>>, rest: seq<Turn<T>>) {
    var looking := Run(Step(m, if peek then StartPeek else StartPop), load);
    var found := Step(looking, Consume);
    var (pushed, popped) := (Pushes(looking.out), Pops(looking.out));
    && looking.c.CLoadHead? && Told(looking.out, Consumer) == Told(m.out, Consumer) && popped <= pushed
    && if popped == pushed then Told(found.out, Consumer) == Told(m.out, Consumer) + [NothingThere]
       else Told(Run(found, rest).out, Consumer) == Told(m.out, Consumer)
            + [if peek then PeekSome(pushed[|popped|]) else PopSome(pushed[|popped|])]
  }

  lemma PopAnsweredAt<T>(m: Machine<T>, peek: bool, load: seq<Turn<T>>, rest: seq<Turn<T>>)
    requires MachineInv(m) && m.c.CIdle? && Turns(load, Consumer) == 1
    requires Turns(rest, Consumer) == if peek then 3 else 6
    ensures PopAnswered(m, peek, load, rest)
  {
    var start := if peek then StartPeek else StartPop;
    var called := Step(m, start);
    StepKeepsInv(m, start);
    PopLooks(called, load);
    RunKeepsInv(called, load);
    var looking := Run(called, load);
    PopDecides(looking);
    if |looking.q.pushed| == |looking.q.popped| {
      ToldAppend(looking.out, NothingThere, Consumer);
    } else {
      StepKeepsInv(looking, Consume);
      ReadCompletes(Step(looking, Consume), rest);
    }
  }

  /** On every run a pop or peek is answered so, whatever the producer does before, between and after its steps. */
  lemma PopIsAnswered<T>(cells: seq<Cell<T>>, blank: T, before: seq<Turn<T>>, peek: bool, load: seq<Turn<T>>,
                         rest: seq<Turn<T>>)
    requires Capacity(|cells|) && Turns(load, Consumer) == 1 && Turns(rest, Consumer) == if peek then 3 else 6
    requires Run(Fresh(cells, blank), before).c.CIdle?
    ensures PopAnswered(Run(Fresh(cells, blank), before), peek, load, rest)
  {
    FreshInv(cells, blank);
    RunKeepsInv(Fresh(cells, blank), before);
    PopAnsweredAt(Run(Fresh(cells, blank), before), peek, load, rest);
  }

  // ---- Slots on every run ----

  /** Between blanking and releasing a slot, the slot is blank. */
  ghost predicate BlankInv<T>(m: Machine<T>, blank: T)
    requires WellSized(m)
  {
    m.blank == blank && (m.c.CRelease? && m.guard.Restored? ==> m.q.cells[m.c.tail % m.q.n] == Val(blank))
  }

  lemma StepKeepsBlank<T>(m: Machine<T>, turn: Turn<T>, blank: T)
    requires MachineInv(m) && BlankInv(m, blank)
    ensures WellSized(Step(m, turn)) && BlankInv(Step(m, turn), blank)
  {
    if turn.Produce? && Filling(m.p) && Emptying(m.c) {
      AgentsNeverShareASlot(m.q, m.p, m.c);
    }
  }

  lemma {:induction false} RunKeepsSlots<T>(m: Machine<T>, turns: seq<Turn<T>>, blank: T)
    requires MachineInv(m) && CountersInv(m) && BlankInv(m, blank)
    ensures MachineInv(Run(m, turns)) && CountersInv(Run(m, turns)) && BlankInv(Run(m, turns), blank)
    decreases |turns|
  {
    if turns != [] {
      StepKeepsInv(m, turns[0]);
      StepKeepsCounters(m, turns[0]);
      StepKeepsBlank(m, turns[0], blank);
      RunKeepsSlots(Step(m, turns[0]), turns[1..], blank);
    }
  }

  lemma FreshCounters<T>(cells: seq<Cell<T>>, blank: T)
    requires Capacity(|cells|)
    ensures WellSized(Fresh(cells, blank)) && CountersInv(Fresh(cells, blank)) && BlankInv(Fresh(cells, blank), blank)
  {
    FreshInv(cells, blank);
  }

  /**
   On every run: the counter of a slot is twice the number of pushes to it, modulo 2^64, one more from before
   the item is written until after, two more until the push is published; and a slot about to be released by a
   pop holds the default value.
   */
  lemma SlotsOnEveryRun<T>(cells: seq<Cell<T>>, blank: T, turns: seq<Turn<T>>, i: nat)
    requires Capacity(|cells|) && i < |cells|
    ensures var m := Run(Fresh(cells, blank), turns);
            && WellSized(m) && m.q.n == |cells|
            && m.counters[i] == (2 * Visits(|Pushes(m.out)|, |cells|, i) + Ahead(m, i)) % WORDS
            && (m.c.CRelease? && m.guard.Restored? ==> m.q.cells[m.c.tail % m.q.n] == Val(blank))
  {
    FreshInv(cells, blank);
    FreshCounters(cells, blank);
    RunKeepsSlots(Fresh(cells, blank), turns, blank);
    RunKeepsCapacity(Fresh(cells, blank), turns);
    assert CounterOk(Run(Fresh(cells, blank), turns), i);
  }
}
