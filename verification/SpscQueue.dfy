/**
 The SPSC queue and the ring buffer: the wrapping ring plus a per-slot sequence counter that the
 producer makes odd while it writes and the consumer checks around its read. `peek` is the ring
 buffer's read that leaves the item.

 Producer and consumer interleave step by step in any order. `out` lists what the calls returned.
 */
module SpscQueue {
  import opened Words
  import opened WrappingQueue

  datatype Out<T> =
    | PushOk(item: T)
    | PushFull
    | PopSome(item: T)
    | PeekSome(item: T)
    | NothingThere
    | Torn

  /** The producer's position relative to the slot's sequence counter. */
  datatype Stamp = Unstamped | Loaded(sequence: nat) | Odd(sequence: nat) | Even

  /** The consumer's position relative to the slot's sequence counter. */
  datatype Guard = Unchecked | First(sequence: nat) | Second | Restored

  datatype Machine<T> = Machine(
    q: Queue<T>, p: Producer<T>, stamp: Stamp, c: Consumer<T>, guard: Guard, peeking: bool,
    counters: seq<nat>, blank: T, out: seq<Out<T>>)

  datatype Turn<T> = StartPush(item: T) | StartPop | StartPeek | Produce | Consume

  function OrOne(x: nat): nat { if x % 2 == 0 then x + 1 else x }
  function AndNotOne(x: nat): nat { x - x % 2 }

  predicate WellSized<T>(m: Machine<T>) { Sized(m.q) && |m.counters| == m.q.n }

  function Reported<T>(m: Machine<T>, out: Out<T>): Machine<T> { m.(out := m.out + [out]) }

  function ProducerTurn<T>(m: Machine<T>): Machine<T>
    requires WellSized(m)
  {
    var (q', p') := ProducerStep(m.q, m.p);
    match m.p
    case PIdle => m
    case PLoadHead(_) => m.(p := p')
    case PLoadTail(_, _) => if p'.PIdle? then Reported(m.(p := p'), PushFull) else m.(p := p')
    case PWrite(_, head) =>
      var at := head % m.q.n;
      match m.stamp {
        case Unstamped => m.(stamp := Loaded(m.counters[at]))
        case Loaded(s) => m.(counters := m.counters[at := OrOne((s + 1) % WORDS)], stamp := Odd(s))
        case _ => m.(q := q', p := p')
      }
    case PPublish(item, head) =>
      match m.stamp {
        case Odd(s) => m.(counters := m.counters[head % m.q.n := AndNotOne((s + 2) % WORDS)], stamp := Even)
        case _ => Reported(m.(q := q', p := p', stamp := Unstamped), PushOk(item))
      }
  }

  /** The consumer gives up on a slot whose counter is odd or has moved. */
  function GiveUp<T>(m: Machine<T>): Machine<T> {
    Reported(m.(c := CIdle, guard := Unchecked, peeking := false), Torn)
  }

  function ConsumerTurn<T>(m: Machine<T>): Machine<T>
    requires WellSized(m)
  {
    var (q', c') := ConsumerStep(m.q, m.c);
    match m.c
    case CIdle => m
    case CLoadTail => m.(c := c')
    case CLoadHead(_) => if c'.CIdle? then Reported(m.(c := c', peeking := false), NothingThere) else m.(c := c')
    case CRead(tail) =>
      var now := m.counters[tail % m.q.n];
      if m.guard.First? then m.(c := c')
      else if now % 2 != 0 then GiveUp(m) else m.(guard := First(now))
    case CClear(tail, item) =>
      var now := m.counters[tail % m.q.n];
      match m.guard {
        case First(s) =>
          if s != now || now % 2 != 0 then GiveUp(m)
          else if m.peeking then Reported(m.(c := CIdle, guard := Unchecked, peeking := false), PeekSome(item))
          else m.(guard := Second)
        case _ => m.(q := q', c := c')
      }
    case CRelease(tail, item) =>
      if m.guard.Second? then m.(q := m.q.(cells := m.q.cells[tail % m.q.n := Val(m.blank)]), guard := Restored)
      else Reported(m.(q := q', c := c', guard := Unchecked), PopSome(item))
  }

  function Step<T>(m: Machine<T>, turn: Turn<T>): Machine<T> {
    if !WellSized(m) then m
    else match turn
      case StartPush(item) => if m.p.PIdle? then m.(p := PLoadHead(item)) else m
      case StartPop => if m.c.CIdle? then m.(c := CLoadTail, peeking := false) else m
      case StartPeek => if m.c.CIdle? then m.(c := CLoadTail, peeking := true) else m
      case Produce => ProducerTurn(m)
      case Consume => ConsumerTurn(m)
  }

  // ---- What was returned ----

  function Pushes<T>(out: seq<Out<T>>): seq<T> {
    if out == [] then []
    else
      var last := out[|out| - 1];
      Pushes(out[..|out| - 1]) + if last.PushOk? then [last.item] else []
  }

  function Pops<T>(out: seq<Out<T>>): seq<T> {
    if out == [] then []
    else
      var last := out[|out| - 1];
      Pops(out[..|out| - 1]) + if last.PopSome? then [last.item] else []
  }

  lemma OutAppend<T>(out: seq<Out<T>>, o: Out<T>)
    ensures Pushes(out + [o]) == Pushes(out) + if o.PushOk? then [o.item] else []
    ensures Pops(out + [o]) == Pops(out) + if o.PopSome? then [o.item] else []
  {
  }

  // ---- Invariant ----

  ghost predicate StampInv<T>(m: Machine<T>)
    requires WellSized(m)
  {
    && (m.p.PWrite? ==> !m.stamp.Even?)
    && (m.p.PPublish? ==> m.stamp.Odd? || m.stamp.Even?)
    && (!Filling(m.p) ==> m.stamp == Unstamped)
    && (m.stamp.Loaded? && m.p.PWrite? ==> m.counters[m.p.head % m.q.n] == m.stamp.sequence)
    && (m.stamp.Odd? ==> m.stamp.sequence % 2 == 0 && m.stamp.sequence < WORDS)
    && (forall i :: 0 <= i < m.q.n ==>
          (m.counters[i] < WORDS
           && (m.counters[i] % 2 == 0 || (m.stamp.Odd? && Filling(m.p) && i == m.p.head % m.q.n))))
  }

  ghost predicate GuardInv<T>(m: Machine<T>)
    requires WellSized(m)
  {
    && (m.c.CRead? ==> m.guard.Unchecked? || m.guard.First?)
    && (m.c.CClear? ==> m.guard.First? || m.guard.Second?)
    && (m.c.CRelease? ==> m.guard.Second? || m.guard.Restored?)
    && (!Emptying(m.c) ==> m.guard == Unchecked)
    && (m.guard.First? && (m.c.CRead? || m.c.CClear?) ==>
          m.guard.sequence == m.counters[m.c.tail % m.q.n] && m.guard.sequence % 2 == 0)
    && (m.guard.Second? || m.guard.Restored? ==> !m.peeking)
  }

  /** A peek returned the item that is, or will be, popped next after it. */
  ghost predicate PeeksInv<T>(pushed: seq<T>, out: seq<Out<T>>) {
    forall i :: 0 <= i < |out| && out[i].PeekSome? ==>
      |Pops(out[..i])| < |pushed| && pushed[|Pops(out[..i])|] == out[i].item
  }

  ghost predicate OutInv<T>(m: Machine<T>) {
    && m.q.pushed == Pushes(m.out) && m.q.popped == Pops(m.out)
    && Torn !in m.out && PeeksInv(m.q.pushed, m.out)
  }

  ghost predicate MachineInv<T>(m: Machine<T>) {
    QueueInv(m.q, m.p, m.c) && WellSized(m) && StampInv(m) && GuardInv(m) && OutInv(m)
  }

  /** The counter the consumer checks is even and still: the odd and changed exits cannot be taken. */
  lemma CountersNeverTear<T>(m: Machine<T>)
    requires MachineInv(m) && Emptying(m.c)
    ensures m.counters[m.c.tail % m.q.n] % 2 == 0
    ensures m.guard.First? && m.c.CClear? ==> m.guard.sequence == m.counters[m.c.tail % m.q.n]
  {
    if Filling(m.p) {
      AgentsNeverShareASlot(m.q, m.p, m.c);
    }
  }

  lemma ReportKeepsOut<T>(m: Machine<T>, q: Queue<T>, o: Out<T>)
    requires OutInv(m) && !o.Torn?
    requires q.pushed == m.q.pushed + (if o.PushOk? then [o.item] else [])
    requires q.popped == m.q.popped + (if o.PopSome? then [o.item] else [])
    requires o.PeekSome? ==> |m.q.popped| < |m.q.pushed| && m.q.pushed[|m.q.popped|] == o.item
    ensures q.pushed == Pushes(m.out + [o]) && q.popped == Pops(m.out + [o])
    ensures Torn !in m.out + [o] && PeeksInv(q.pushed, m.out + [o])
  {
    var out := m.out + [o];
    OutAppend(m.out, o);
    forall i | 0 <= i < |out| && out[i].PeekSome?
      ensures |Pops(out[..i])| < |q.pushed| && q.pushed[|Pops(out[..i])|] == out[i].item
    {
      assert out[..i] == m.out[..i];
      if i == |m.out| {
        assert m.out[..i] == m.out;
      } else {
        assert out[i] == m.out[i];
      }
    }
  }

  /** A change of one counter that the consumer's slot does not feel. */
  lemma CounterChangeKeepsGuard<T>(m: Machine<T>, value: nat)
    requires MachineInv(m) && Filling(m.p)
    ensures var m' := m.(counters := m.counters[m.p.head % m.q.n := value]); GuardInv(m')
  {
    if Emptying(m.c) {
      AgentsNeverShareASlot(m.q, m.p, m.c);
    }
  }

  lemma StampParity(s: nat)
    requires s % 2 == 0 && s < WORDS
    ensures OrOne((s + 1) % WORDS) == s + 1 < WORDS
    ensures AndNotOne((s + 2) % WORDS) % 2 == 0 && AndNotOne((s + 2) % WORDS) < WORDS
  {
  }

  /** The two counter stores: odd while the slot is being written, even again after it. */
  lemma StampTurnKeepsInv<T>(m: Machine<T>)
    requires MachineInv(m) && Filling(m.p) && (m.stamp.Loaded? || (m.stamp.Odd? && m.p.PPublish?))
    ensures MachineInv(ProducerTurn(m))
  {
    StampParity(m.stamp.sequence);
    CounterChangeKeepsGuard(m, OrOne((m.stamp.sequence + 1) % WORDS));
    CounterChangeKeepsGuard(m, AndNotOne((m.stamp.sequence + 2) % WORDS));
  }

  lemma PublishTurnKeepsInv<T>(m: Machine<T>)
    requires MachineInv(m) && m.p.PPublish? && !m.stamp.Odd?
    ensures MachineInv(ProducerTurn(m))
  {
    ProducerKeepsInv(m.q, m.p, m.c);
    ReportKeepsOut(m, ProducerStep(m.q, m.p).0, PushOk(m.p.item));
  }

  lemma WriteTurnKeepsInv<T>(m: Machine<T>)
    requires MachineInv(m) && m.p.PWrite? && !m.stamp.Loaded?
    ensures MachineInv(ProducerTurn(m))
  {
    ProducerKeepsInv(m.q, m.p, m.c);
  }

  lemma ProducerTurnKeepsInv<T>(m: Machine<T>)
    requires MachineInv(m)
    ensures MachineInv(ProducerTurn(m))
  {
    if Filling(m.p) {
      if m.stamp.Loaded? || (m.stamp.Odd? && m.p.PPublish?) {
        StampTurnKeepsInv(m);
      } else if m.p.PPublish? {
        PublishTurnKeepsInv(m);
      } else {
        WriteTurnKeepsInv(m);
      }
    } else {
      ProducerKeepsInv(m.q, m.p, m.c);
      if m.p.PLoadTail? {
        ReportKeepsOut(m, m.q, PushFull);
      }
    }
  }

  lemma LookTurnKeepsInv<T>(m: Machine<T>)
    requires MachineInv(m) && (m.c.CLoadTail? || m.c.CLoadHead?)
    ensures MachineInv(ConsumerTurn(m))
  {
    ConsumerKeepsInv(m.q, m.p, m.c);
    if m.c.CLoadHead? {
      ReportKeepsOut(m, m.q, NothingThere);
    }
  }

  lemma ReadTurnKeepsInv<T>(m: Machine<T>)
    requires MachineInv(m) && m.c.CRead?
    ensures MachineInv(ConsumerTurn(m))
  {
    ConsumerKeepsInv(m.q, m.p, m.c);
    CountersNeverTear(m);
  }

  lemma CheckTurnKeepsInv<T>(m: Machine<T>)
    requires MachineInv(m) && m.c.CClear?
    ensures MachineInv(ConsumerTurn(m))
  {
    CountersNeverTear(m);
    if m.guard.First? {
      if m.peeking {
        ReportKeepsOut(m, m.q, PeekSome(m.c.item));
      }
    } else {
      ConsumerKeepsInv(m.q, m.p, m.c);
    }
  }

  lemma ReleaseTurnKeepsInv<T>(m: Machine<T>)
    requires MachineInv(m) && m.c.CRelease?
    ensures MachineInv(ConsumerTurn(m))
  {
    if m.guard.Second? {
      ClearKeepsInv(m.q, m.p, m.c, Val(m.blank));
    } else {
      ConsumerKeepsInv(m.q, m.p, m.c);
      ReportKeepsOut(m, ConsumerStep(m.q, m.c).0, PopSome(m.c.item));
    }
  }

  lemma ConsumerTurnKeepsInv<T>(m: Machine<T>)
    requires MachineInv(m)
    ensures MachineInv(ConsumerTurn(m))
  {
    match m.c
    case CIdle =>
    case CClear(_, _) => CheckTurnKeepsInv(m);
    case CRelease(_, _) => ReleaseTurnKeepsInv(m);
    case CRead(_) => ReadTurnKeepsInv(m);
    case _ => LookTurnKeepsInv(m);
  }

  lemma StepKeepsInv<T>(m: Machine<T>, turn: Turn<T>)
    requires MachineInv(m)
    ensures MachineInv(Step(m, turn))
  {
    match turn
    case Produce => ProducerTurnKeepsInv(m);
    case Consume => ConsumerTurnKeepsInv(m);
    case _ =>
  }

  function Run<T>(m: Machine<T>, turns: seq<Turn<T>>): Machine<T>
    decreases |turns|
  {
    if turns == [] then m else Run(Step(m, turns[0]), turns[1..])
  }

  lemma {:induction false} RunKeepsInv<T>(m: Machine<T>, turns: seq<Turn<T>>)
    requires MachineInv(m)
    ensures MachineInv(Run(m, turns))
    decreases |turns|
  {
    if turns != [] {
      StepKeepsInv(m, turns[0]);
      RunKeepsInv(Step(m, turns[0]), turns[1..]);
    }
  }

  /** A queue just initialized: counters zero, payload of any content. */
  function Fresh<T>(cells: seq<Cell<T>>, blank: T): Machine<T> {
    Machine(Queue(|cells|, 0, 0, cells, [], []), PIdle, Unstamped, CIdle, Unchecked, false, seq(|cells|, _ => 0),
            blank, [])
  }

  lemma FreshInv<T>(cells: seq<Cell<T>>, blank: T)
    requires Capacity(|cells|)
    ensures MachineInv(Fresh(cells, blank))
  {
    CapacityFits(|cells|);
  }

  /**
   On every interleaving, for every power-of-two capacity, across index wrap-around: the popped items
   followed by the stored ones are the pushed ones, no slot tears, and a peek returns the next pop.
   */
  lemma FifoOnEveryRun<T>(cells: seq<Cell<T>>, blank: T, turns: seq<Turn<T>>)
    requires Capacity(|cells|)
    ensures var m := Run(Fresh(cells, blank), turns);
            var stored := |Pushes(m.out)| - |Pops(m.out)|;
            && 0 <= stored <= |cells|
            && Pops(m.out) == Pushes(m.out)[..|Pops(m.out)|]
            && Torn !in m.out
            && (forall i :: 0 <= i < |m.out| && m.out[i].PeekSome? && |Pops(m.out[..i])| < |Pops(m.out)| ==>
                  Pops(m.out)[|Pops(m.out[..i])|] == m.out[i].item)
            && (forall k :: |Pops(m.out)| <= k < |Pushes(m.out)| && (m.c.CRelease? ==> k > |Pops(m.out)|) ==>
                  m.q.n == |m.q.cells| > 0 && m.q.cells[k % m.q.n] == Val(Pushes(m.out)[k]))
  {
    FreshInv(cells, blank);
    RunKeepsInv(Fresh(cells, blank), turns);
    RunKeepsCapacity(Fresh(cells, blank), turns);
    var m := Run(Fresh(cells, blank), turns);
    forall k | |Pops(m.out)| <= k < |Pushes(m.out)| && (m.c.CRelease? ==> k > |Pops(m.out)|)
      ensures m.q.cells[k % m.q.n] == Val(Pushes(m.out)[k])
    {
      assert StoredAt(m.q, k);
    }
  }

  /** Nothing but a look at a full or an empty queue is refused. */
  lemma RefusalsAt<T>(m: Machine<T>)
    requires MachineInv(m)
    ensures ProducerTurn(m).out == m.out + [PushFull] <==> m.p.PLoadTail? && |m.q.pushed| == |m.q.popped| + m.q.n
    ensures ConsumerTurn(m).out == m.out + [NothingThere] <==> m.c.CLoadHead? && m.q.pushed == m.q.popped
  {
    FullAndEmptyAreExact(m.q, m.p, m.c);
    var (p, c) := (ProducerTurn(m).out, ConsumerTurn(m).out);
    assert p != m.out ==> |p| == |m.out| + 1 && (p == m.out + [PushFull] <==> p[|m.out|] == PushFull);
    assert c != m.out ==> |c| == |m.out| + 1 && (c == m.out + [NothingThere] <==> c[|m.out|] == NothingThere);
  }

  /**
   At every point of every run: a step refuses a push exactly when it looks for room and the queue is full,
   and a step finds nothing for a pop or peek exactly when it looks and the queue is empty; a slot being
   filled is never the one being emptied; a counter about to be checked is even.
   */
  lemma AgentsOnEveryRun<T>(cells: seq<Cell<T>>, blank: T, turns: seq<Turn<T>>)
    requires Capacity(|cells|)
    ensures var m := Run(Fresh(cells, blank), turns);
            && WellSized(m) && m.q.n == |cells|
            && (ProducerTurn(m).out == m.out + [PushFull] <==>
                  m.p.PLoadTail? && |Pushes(m.out)| == |Pops(m.out)| + |cells|)
            && (ConsumerTurn(m).out == m.out + [NothingThere] <==> m.c.CLoadHead? && Pushes(m.out) == Pops(m.out))
            && (Filling(m.p) && Emptying(m.c) ==> m.p.head % m.q.n != m.c.tail % m.q.n)
            && (Emptying(m.c) ==> m.counters[m.c.tail % m.q.n] % 2 == 0)
  {
    FreshInv(cells, blank);
    RunKeepsInv(Fresh(cells, blank), turns);
    RunKeepsCapacity(Fresh(cells, blank), turns);
    var m := Run(Fresh(cells, blank), turns);
    RefusalsAt(m);
    if Emptying(m.c) {
      CountersNeverTear(m);
      if Filling(m.p) {
        AgentsNeverShareASlot(m.q, m.p, m.c);
      }
    }
  }

  lemma {:induction false} RunKeepsCapacity<T>(m: Machine<T>, turns: seq<Turn<T>>)
    ensures Run(m, turns).q.n == m.q.n
    decreases |turns|
  {
    if turns != [] {
      RunKeepsCapacity(Step(m, turns[0]), turns[1..]);
    }
  }
}
