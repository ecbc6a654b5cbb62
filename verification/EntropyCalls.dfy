/**
 What every call on the entropy pools and their queue comes to: each is answered within a number of its own
 steps that its arguments alone bound, whatever the other threads do meanwhile.
 */
module EntropyCalls {
  import opened SymbolicCrypto
  import opened Wrappers
  import opened WrappingQueue
  import opened EntropyPools
  import opened EntropySystem

  // ---- How long a call takes ----

  /** Steps from the end of mixing to the end of the call. */
  function AfterMixing(want: Option<nat>): nat { if want.None? then 1 else 2 * Blocks(want.value) + 3 }

  function PopsLeft(c: Consumer<Chunk>, chunks: nat): nat {
    var loop := if chunks < MAX_MIX_CHUNKS_PER_CALL then 6 * (MAX_MIX_CHUNKS_PER_CALL - chunks) + 4 else 4;
    match c
    case CIdle => loop
    case CLoadTail => loop - 1
    case CLoadHead(_) => loop - 2
    case CRead(_) => loop - 3
    case CClear(_, _) => if loop < 4 then 0 else loop - 4
    case CRelease(_, _) => if loop < 5 then 0 else loop - 5
  }

  function WantLeft(job: Job): nat {
    if job.want.Some? && |job.bytes| <= job.want.value then job.want.value - |job.bytes| else 0
  }

  /** A bound on the steps a call still takes. */
  function Left(pc: Pc): nat {
    if pc.Idle? then 0
    else match pc.stage
      case TakePool => PopsLeft(CIdle, 0) + AfterMixing(pc.job.want) + 2
      case TakeQueue => PopsLeft(CIdle, 0) + AfterMixing(pc.job.want) + 1
      case Pop(c) => PopsLeft(c, |pc.job.chunks|) + AfterMixing(pc.job.want)
      case MixCommit => 3 + AfterMixing(pc.job.want)
      case CountReseed => 2 + AfterMixing(pc.job.want)
      case DropQueue => 1 + AfterMixing(pc.job.want)
      case CheckSeeded => AfterMixing(pc.job.want)
      case Snapshot => 2 * Blocks(WantLeft(pc.job)) + 2
      case Commit(_) => 2 * Blocks(WantLeft(pc.job)) + 1
      case DropPool(_) => 1
  }

  /** The thread is in the same call, nearer its end. */
  predicate Nearer(pc: Pc, pc': Pc) {
    pc.At? && pc'.At? && pc'.job.pool == pc.job.pool && pc'.job.want == pc.job.want && Left(pc') < Left(pc)
  }

  lemma BlockTaken(length: nat, n: nat)
    requires 0 < length && n == if length < 48 then length else 48
    ensures Blocks(length - n) == Blocks(length) - 1
  {
  }

  lemma LocalNearer(base: Pool, pool: Pool, stage: Stage, job: Job)
    requires IsLocal(stage) && Progress(base, pool, stage, job)
    ensures var (_, stage', job') := Local(pool, stage, job); Nearer(At(stage, job), At(stage', job'))
  {
    if stage.Commit? {
      var left := job.want.value - |job.bytes|;
      BlockTaken(left, if left < 48 then left else 48);
    } else if stage.CheckSeeded? {
      assert WantLeft(job) == job.want.value;
    }
  }

  lemma PopFacts(s: System, t: nat)
    requires Inv(s) && Enabled(s, t) && s.threads[t].stage.Pop?
    ensures var (c, chunks) := (s.threads[t].stage.consumer, s.threads[t].job.chunks);
            && QueueInv(s.queue, s.producer, c) && |chunks| <= MAX_MIX_CHUNKS_PER_CALL
            && (!c.CIdle? ==> |chunks| < MAX_MIX_CHUNKS_PER_CALL)
  {
    OwnerIsThread(s, t);
  }

  lemma LoopNearer(queue: Queue<Chunk>, producer: Producer<Chunk>, c: Consumer<Chunk>, job: Job)
    requires QueueInv(queue, producer, c) && Sized(queue) && !c.CRelease? && |job.chunks| <= MAX_MIX_CHUNKS_PER_CALL
    requires !c.CIdle? ==> |job.chunks| < MAX_MIX_CHUNKS_PER_CALL
    ensures Nearer(At(Pop(c), job), At(LoopStage(queue, c, job.chunks), job))
  {
    ConsumerKeepsInv(queue, producer, c);
  }

  lemma PopNearer(s: System, t: nat)
    requires Inv(s) && Enabled(s, t) && s.threads[t].stage.Pop?
    ensures Nearer(s.threads[t], PopStep(s, t).threads[t])
  {
    PopFacts(s, t);
    if !s.threads[t].stage.consumer.CRelease? {
      LoopKeepsQueue(s, t);
      LoopNearer(s.queue, s.producer, s.threads[t].stage.consumer, s.threads[t].job);
    }
  }

  /** Every own step brings a call nearer its end, or ends it. */
  lemma StepIsNearer(s: System, t: nat)
    requires Inv(s) && Enabled(s, t)
    ensures Advance(s, t).threads[t].Idle? || Nearer(s.threads[t], Advance(s, t).threads[t])
  {
    var pc := s.threads[t];
    if pc.stage.Pop? {
      PopNearer(s, t);
    } else if IsLocal(pc.stage) {
      OwnerIsThread(s, t);
      var g := s.pools[pc.job.pool];
      LocalNearer(Replay(g.ops), g.pool, pc.stage, pc.job);
    }
  }

  // ---- Every call is answered ----

  /** The replies to one thread, in order. */
  function RepliesTo(replies: seq<Reply>, t: nat): seq<Answer> {
    if replies == [] then []
    else
      var last := replies[|replies| - 1];
      RepliesTo(replies[..|replies| - 1], t) + if last.thread == t then [last.answer] else []
  }

  lemma RepliesAppend(replies: seq<Reply>, reply: Reply, t: nat)
    ensures RepliesTo(replies + [reply], t) == RepliesTo(replies, t) + if reply.thread == t then [reply.answer] else []
  {
  }

  /** A mix reports nothing; an extraction is busy, starved or filled to the length asked for. */
  predicate Fits(want: Option<nat>, answer: Answer) {
    if want.None? then answer.Mixing?
    else answer.Busy? || answer.Starved? || (answer.Filled? && |answer.bytes| == want.value)
  }

  /** An own step adds a reply exactly when it ends the call, and one that fits. */
  lemma OwnReply(s: System, t: nat)
    requires Inv(s) && Enabled(s, t)
    ensures var (s', want) := (Advance(s, t), s.threads[t].job.want);
            if s'.threads[t].Idle?
            then |s'.replies| == |s.replies| + 1 && s'.replies == s.replies + [s'.replies[|s.replies|]]
                 && s'.replies[|s.replies|].thread == t && Fits(want, s'.replies[|s.replies|].answer)
            else s'.replies == s.replies
  {
    var pc := s.threads[t];
    if pc.stage.DropPool? {
      OwnerIsThread(s, t);
      SerialFits(Replay(s.pools[pc.job.pool].ops), pc.job.want, pc.job.chunks);
    }
  }

  lemma SerialFits(pool: Pool, want: Option<nat>, chunks: seq<Chunk>)
    ensures Fits(want, Serial(pool, want, chunks).1)
  {
    if want.Some? {
      ExtractionSteps(MixedPool(pool, chunks).state, want.value);
    }
  }

  lemma OthersKeepPc(s: System, m: Move, t: nat)
    requires t < |s.threads| && s.threads[t].At? && m != Go(t)
    ensures t < |Step(s, m).threads| && Step(s, m).threads[t] == s.threads[t]
  {
  }

  lemma OthersReply(s: System, m: Move)
    ensures var s' := Step(s, m);
            s'.replies == s.replies || (m.Go? && exists answer :: s'.replies == s.replies + [Reply(m.thread, answer)])
  {
  }

  /** The moves of the producer and of other threads leave a thread's call and its replies alone. */
  lemma OthersLeaveCall(s: System, m: Move, t: nat)
    requires t < |s.threads| && s.threads[t].At? && m != Go(t)
    ensures var s' := Step(s, m);
            t < |s'.threads| && s'.threads[t] == s.threads[t] && RepliesTo(s'.replies, t) == RepliesTo(s.replies, t)
  {
    OthersKeepPc(s, m, t);
    OthersReply(s, m);
    if Step(s, m).replies != s.replies {
      var answer :| Step(s, m).replies == s.replies + [Reply(m.thread, answer)];
      RepliesAppend(s.replies, Reply(m.thread, answer), t);
    }
  }

  function OwnMoves(moves: seq<Move>, t: nat): nat
    decreases |moves|
  {
    if moves == [] then 0 else (if moves[0] == Go(t) then 1 else 0) + OwnMoves(moves[1..], t)
  }

  /** `replies` has one reply to `t` more than `before`, and it fits. */
  ghost predicate OneMore(before: seq<Reply>, replies: seq<Reply>, t: nat, want: Option<nat>) {
    exists answer :: Fits(want, answer) && RepliesTo(replies, t) == RepliesTo(before, t) + [answer]
  }

  /** One move of anyone, seen from the call thread `t` is in. */
  lemma MoveOfCall(s: System, m: Move, t: nat)
    requires Inv(s) && t < |s.threads| && s.threads[t].At?
    ensures var (pc, s') := (s.threads[t], Step(s, m));
            && t < |s'.threads|
            && if s'.threads[t].Idle? then m == Go(t) && OneMore(s.replies, s'.replies, t, pc.job.want)
               else RepliesTo(s'.replies, t) == RepliesTo(s.replies, t) && s'.threads[t].job.want == pc.job.want
                    && Left(s'.threads[t]) + (if m == Go(t) then 1 else 0) <= Left(pc)
  {
    if m == Go(t) {
      CountsSized(s.queue);
      StepIsNearer(s, t);
      OwnReply(s, t);
      var s' := Advance(s, t);
      if s'.threads[t].Idle? {
        RepliesAppend(s.replies, s'.replies[|s.replies|], t);
      }
    } else {
      OthersLeaveCall(s, m, t);
    }
  }

  /** After the first `k` of `moves` the call of thread `t` has ended, with one reply more, which fits. */
  ghost predicate EndsWithin(s: System, moves: seq<Move>, t: nat, want: Option<nat>, k: int) {
    && 0 <= k <= |moves| && var e := Run(s, moves[..k]);
    && t < |e.threads| && e.threads[t].Idle? && OneMore(s.replies, e.replies, t, want)
  }

  lemma EndsLater(s: System, moves: seq<Move>, t: nat, want: Option<nat>, k: nat)
    requires moves != [] && EndsWithin(Step(s, moves[0]), moves[1..], t, want, k)
    requires RepliesTo(Step(s, moves[0]).replies, t) == RepliesTo(s.replies, t)
    ensures EndsWithin(s, moves, t, want, k + 1)
  {
    assert moves[..k + 1][1..] == moves[1..][..k];
    assert Run(s, moves[..k + 1]) == Run(Step(s, moves[0]), moves[1..][..k]);
  }

  lemma {:induction false} CallEnds(s: System, moves: seq<Move>, t: nat) returns (k: nat)
    requires Inv(s) && t < |s.threads| && s.threads[t].At? && OwnMoves(moves, t) >= Left(s.threads[t])
    ensures EndsWithin(s, moves, t, s.threads[t].job.want, k)
    decreases |moves|
  {
    LeftIsPositive(s.threads[t]);
    MoveOfCall(s, moves[0], t);
    StepKeepsInv(s, moves[0]);
    var s' := Step(s, moves[0]);
    if s'.threads[t].Idle? {
      k := 1;
      assert moves[..1][1..] == [] && Run(s, moves[..1]) == s';
    } else {
      var rest := CallEnds(s', moves[1..], t);
      EndsLater(s, moves, t, s.threads[t].job.want, rest);
      k := rest + 1;
    }
  }

  lemma LeftIsPositive(pc: Pc)
    ensures pc.At? ==> Left(pc) > 0
  {
  }

  /**
   On every run a call begun by an idle thread ends within a number of its own steps that its arguments bound,
   whatever the producer and the other threads do, with exactly one reply: nothing for a mix, and busy, starved
   or as many bytes as asked for an extraction.
   */
  lemma CallsAreAnswered(s: System, before: seq<Move>, t: nat, pool: nat, want: Option<nat>, moves: seq<Move>)
    requires Fresh(s) && OwnMoves(moves, t) >= 54 + AfterMixing(want)
    requires var e := Run(s, before); t < |e.threads| && e.threads[t].Idle? && pool < |e.pools|
    ensures exists k :: EndsWithin(Step(Run(s, before), Begin(t, pool, want)), moves, t, want, k)
    ensures Step(Run(s, before), Begin(t, pool, want)).threads[t].job.pool == pool
  {
    FreshInv(s);
    RunKeepsInv(s, before);
    StepKeepsInv(Run(s, before), Begin(t, pool, want));
    var k := CallEnds(Step(Run(s, before), Begin(t, pool, want)), moves, t);
  }

  /** The reply of a call that got its pool: what it would have answered alone after the operations before it. */
  lemma FinishedCallsAnswerSerially(s: System, before: seq<Move>, t: nat)
    requires Fresh(s)
    requires var e := Run(s, before); Enabled(e, t) && e.threads[t].stage.DropPool?
    ensures var e := Run(s, before);
            var (job, e') := (e.threads[t].job, Advance(e, t));
            var answer := Serial(Replay(e.pools[job.pool].ops), job.want, job.chunks).1;
            && e'.replies == e.replies + [Reply(t, answer)] && e'.threads[t].Idle? && |e'.pools| == |e.pools|
            && e'.pools[job.pool].ops == e.pools[job.pool].ops + [Operation(Start(t, job.want), job.chunks, answer)]
  {
    FreshInv(s);
    RunKeepsInv(s, before);
    OwnerIsThread(Run(s, before), t);
  }

  // ---- The producer ----

  function ProducerMoves(moves: seq<Move>): nat
    decreases |moves|
  {
    if moves == [] then 0 else (if moves[0].Produce? then 1 else 0) + ProducerMoves(moves[1..])
  }

  /** No thread's step moves the producer or adds to the queue. */
  lemma OthersLeavePush(s: System, m: Move)
    requires !m.Produce?
    ensures var s' := Step(s, m);
            (!s.producer.PIdle? ==> s'.producer == s.producer) && s'.queue.pushed == s.queue.pushed
  {
  }

  lemma {:induction false} NoProducerMoves(s: System, moves: seq<Move>)
    requires ProducerMoves(moves) == 0
    ensures Run(s, moves).queue.pushed == s.queue.pushed
    ensures !s.producer.PIdle? ==> Run(s, moves).producer == s.producer
    decreases |moves|
  {
    if moves != [] {
      OthersLeavePush(s, moves[0]);
      NoProducerMoves(Step(s, moves[0]), moves[1..]);
    }
  }

  /** How many own steps a push still takes, and whether it has found room. */
  function PushLeft(p: Producer<Chunk>): nat {
    match p
    case PIdle => 0
    case PLoadHead(_) => 4
    case PLoadTail(_, _) => 3
    case PWrite(_, _) => 2
    case PPublish(_, _) => 1
  }

  lemma {:induction false} PushReaches(s: System, moves: seq<Move>)
    requires Inv(s) && (s.producer.PLoadHead? || Filling(s.producer))
    requires ProducerMoves(moves) == if s.producer.PLoadHead? then 1 else PushLeft(s.producer)
    ensures var e := Run(s, moves);
            if s.producer.PLoadHead?
            then e.producer.PLoadTail? && e.producer.item == s.producer.item && e.queue.pushed == s.queue.pushed
            else e.queue.pushed == s.queue.pushed + [s.producer.item]
    decreases |moves|
  {
    StepKeepsInv(s, moves[0]);
    CountsSized(s.queue);
    if !moves[0].Produce? {
      OthersLeavePush(s, moves[0]);
      PushReaches(Step(s, moves[0]), moves[1..]);
    } else if s.producer.PWrite? {
      PushReaches(Step(s, moves[0]), moves[1..]);
    } else {
      NoProducerMoves(Step(s, moves[0]), moves[1..]);
    }
  }

  /** A chunk pushed at `s`: refused if the queue is full when the push looks, else queued by two more steps. */
  ghost predicate ChunkQueued(s: System, chunk: Chunk, load: seq<Move>, rest: seq<Move>) {
    var looking := Run(Step(s, Push(chunk)), load);
    var found := Step(looking, Produce);
    && looking.producer.PLoadTail? && looking.queue.pushed == s.queue.pushed
    && if |looking.queue.pushed| == |looking.queue.popped| + 64
       then found.producer.PIdle? && found.queue == looking.queue
       else Run(found, rest).queue.pushed == s.queue.pushed + [chunk]
  }

  lemma LookDecides(s: System)
    requires Inv(s) && s.producer.PLoadTail?
    ensures var s' := Step(s, Produce);
            if |s.queue.pushed| == |s.queue.popped| + s.queue.n then s'.producer.PIdle? && s'.queue == s.queue
            else s'.producer.PWrite? && s'.producer.item == s.producer.item && s'.queue == s.queue
  {
    CountsSized(s.queue);
    FullAndEmptyAreExact(s.queue, s.producer, ActiveConsumer(s));
  }

  lemma {:induction false} CapacityStays(s: System, moves: seq<Move>)
    ensures Run(s, moves).queue.n == s.queue.n
    decreases |moves|
  {
    if moves != [] {
      CapacityStays(Step(s, moves[0]), moves[1..]);
    }
  }

  /** On every run a pushed chunk is queued so, whatever the mixing threads do meanwhile. */
  lemma PushesAreQueued(s: System, before: seq<Move>, chunk: Chunk, load: seq<Move>, rest: seq<Move>)
    requires Fresh(s) && Run(s, before).producer.PIdle? && ProducerMoves(load) == 1 && ProducerMoves(rest) == 2
    ensures ChunkQueued(Run(s, before), chunk, load, rest)
  {
    FreshInv(s);
    RunKeepsInv(s, before);
    var called := Step(Run(s, before), Push(chunk));
    StepKeepsInv(Run(s, before), Push(chunk));
    PushReaches(called, load);
    RunKeepsInv(called, load);
    CapacityStays(s, before);
    CapacityStays(called, load);
    var looking := Run(called, load);
    LookDecides(looking);
    if |looking.queue.pushed| != |looking.queue.popped| + 64 {
      StepKeepsInv(looking, Produce);
      PushReaches(Step(looking, Produce), rest);
    }
  }
}
