/**
 Any number of threads mixing into and extracting from any number of entropy pools, fed by one
 producer through the global queue. Each atomic access, lock section or queue access is one step.

 `owner`, `starts`, `ops`, `holder`, `takers` and `replies` record history; no step reads them.
 */
module EntropySystem {
  import opened SymbolicCrypto
  import opened Wrappers
  import opened EntropyPools
  import opened WrappingQueue

  /** Where an operation is: each constructor names its next step. */
  datatype Stage =
    | TakePool
    | TakeQueue
    | Pop(consumer: Consumer<Chunk>)
    | MixCommit
    | CountReseed
    | DropQueue
    | CheckSeeded
    | Snapshot
    | Commit(snapshot: seq<Byte>)
    | DropPool(answer: Answer)

  /** A mix when `want` is none, otherwise an extraction of that many bytes. */
  datatype Job = Job(pool: nat, want: Option<nat>, chunks: seq<Chunk>, bytes: seq<Byte>)

  datatype Pc = Idle | At(stage: Stage, job: Job)

  datatype Start = Start(thread: nat, want: Option<nat>)

  datatype Operation = Operation(start: Start, chunks: seq<Chunk>, answer: Answer)

  /** What a call returned to its thread; a mix reports nothing, refused or not. */
  datatype Reply = Reply(thread: nat, answer: Answer)

  datatype Gated = Gated(pool: Pool, mixing: bool, owner: Option<nat>, starts: seq<Start>, ops: seq<Operation>)

  datatype System = System(
    queue: Queue<Chunk>, producer: Producer<Chunk>, gate: bool,
    pools: seq<Gated>, threads: seq<Pc>, holder: Option<nat>, takers: seq<nat>, replies: seq<Reply>)

  datatype Move = Begin(thread: nat, pool: nat, want: Option<nat>) | Push(chunk: Chunk) | Produce | Go(thread: nat)

  // ---- Steps ----

  function Moved(s: System, t: nat, stage: Stage): System
    requires t < |s.threads| && s.threads[t].At?
  {
    s.(threads := s.threads[t := s.threads[t].(stage := stage)])
  }

  function AfterMix(want: Option<nat>): Stage { if want.None? then DropPool(Mixing) else CheckSeeded }

  function AfterPops(chunks: seq<Chunk>): Stage { if chunks == [] then DropQueue else MixCommit }

  predicate Enabled(s: System, t: nat) {
    t < |s.threads| && s.threads[t].At? && s.threads[t].job.pool < |s.pools| && Sized(s.queue)
  }

  function TakePoolStep(s: System, t: nat): System
    requires Enabled(s, t)
  {
    var job := s.threads[t].job;
    var g := s.pools[job.pool];
    if g.mixing then
      s.(threads := s.threads[t := Idle], replies := s.replies + [Reply(t, if job.want.None? then Mixing else Busy)])
    else
      var g' := g.(mixing := true, owner := Some(t), starts := g.starts + [Start(t, job.want)]);
      Moved(s, t, TakeQueue).(pools := s.pools[job.pool := g'])
  }

  function TakeQueueStep(s: System, t: nat): System
    requires Enabled(s, t)
  {
    if s.gate then Moved(s, t, AfterMix(s.threads[t].job.want))
    else Moved(s, t, Pop(CIdle)).(gate := true, holder := Some(t))
  }

  /** The bounded loop around `pop`; a released item has just been hashed. */
  function PopStep(s: System, t: nat): System
    requires Enabled(s, t) && s.threads[t].stage.Pop?
  {
    var job := s.threads[t].job;
    var c := s.threads[t].stage.consumer;
    var (q', c') := ConsumerStep(s.queue, c);
    if c.CIdle? then
      Moved(s, t, if |job.chunks| < MAX_MIX_CHUNKS_PER_CALL then Pop(CLoadTail) else AfterPops(job.chunks))
    else if c.CRelease? then
      s.(queue := q', takers := s.takers + [job.pool],
         threads := s.threads[t := At(Pop(c'), job.(chunks := job.chunks + [c.item]))])
    else
      Moved(s, t, if c'.CIdle? then AfterPops(job.chunks) else Pop(c')).(queue := q')
  }

  /** The stages that touch only the pool they own and their own progress. */
  predicate IsLocal(stage: Stage) {
    stage.MixCommit? || stage.CountReseed? || stage.CheckSeeded? || stage.Snapshot? || stage.Commit?
  }

  function Local(pool: Pool, stage: Stage, job: Job): (Pool, Stage, Job)
    requires IsLocal(stage)
  {
    match stage
    case MixCommit => (pool.(state := Mixed(pool.state, job.chunks)), CountReseed, job)
    case CountReseed => (pool.(reseeds := NextCount(pool.reseeds)), DropQueue, job)
    case CheckSeeded => (pool, if pool.reseeds == 0 then DropPool(Starved) else Snapshot, job)
    case Snapshot =>
      (pool, if job.want.Some?
       && |job.bytes| < job.want.value then Commit(pool.state) else DropPool(Filled(job.bytes)), job)
    case Commit(snapshot) =>
      var n := if job.want.Some? && 0 <= job.want.value - |job.bytes| < 48 then job.want.value - |job.bytes| else 48;
      (pool.(state := NextState(snapshot)), Snapshot, job.(bytes := job.bytes + OutBlock(snapshot)[..n]))
  }

  function LocalStep(s: System, t: nat): System
    requires Enabled(s, t) && IsLocal(s.threads[t].stage)
  {
    var j := s.threads[t].job.pool;
    var (pool, stage, job) := Local(s.pools[j].pool, s.threads[t].stage, s.threads[t].job);
    s.(threads := s.threads[t := At(stage, job)], pools := s.pools[j := s.pools[j].(pool := pool)])
  }

  function Finished(g: Gated, op: Operation): Gated { g.(mixing := false, owner := None, ops := g.ops + [op]) }

  function DropPoolStep(s: System, t: nat): System
    requires Enabled(s, t) && s.threads[t].stage.DropPool?
  {
    var job := s.threads[t].job;
    var g := s.pools[job.pool];
    var op := Operation(Start(t, job.want), job.chunks, s.threads[t].stage.answer);
    s.(threads := s.threads[t := Idle], pools := s.pools[job.pool := Finished(g, op)],
       replies := s.replies + [Reply(t, op.answer)])
  }

  function DropQueueStep(s: System, t: nat): System
    requires Enabled(s, t)
  {
    Moved(s, t, AfterMix(s.threads[t].job.want)).(gate := false, holder := None)
  }

  function Advance(s: System, t: nat): System
    requires Enabled(s, t)
  {
    match s.threads[t].stage
    case TakePool => TakePoolStep(s, t)
    case TakeQueue => TakeQueueStep(s, t)
    case Pop(_) => PopStep(s, t)
    case DropQueue => DropQueueStep(s, t)
    case DropPool(_) => DropPoolStep(s, t)
    case _ => LocalStep(s, t)
  }

  function Step(s: System, m: Move): System {
    match m
    case Begin(t, pool, want) =>
      if t < |s.threads| && s.threads[t].Idle? && pool < |s.pools| then
        s.(threads := s.threads[t := At(TakePool, Job(pool, want, [], []))])
      else s
    case Push(chunk) => if s.producer.PIdle? then s.(producer := PLoadHead(chunk)) else s
    case Produce =>
      if Sized(s.queue) then
        var (q', p') := ProducerStep(s.queue, s.producer);
        s.(queue := q', producer := p')
      else s
    case Go(t) => if Enabled(s, t) then Advance(s, t) else s
  }

  function Run(s: System, moves: seq<Move>): System
    decreases |moves|
  {
    if moves == [] then s else Run(Step(s, moves[0]), moves[1..])
  }

  ghost predicate Fresh(s: System) {
    && s.queue == Queue(64, 0, 0, s.queue.cells, [], []) && |s.queue.cells| == 64
    && s.producer.PIdle? && !s.gate && s.holder.None? && s.takers == [] && s.replies == []
    && (forall t :: 0 <= t < |s.threads| ==> s.threads[t].Idle?)
    && (forall j :: 0 <= j < |s.pools| ==> s.pools[j] == Gated(NewPool(), false, None, [], []))
  }

  // ---- Serial meaning of a pool's completed operations ----

  function Replay(ops: seq<Operation>): Pool
    decreases |ops|
  {
    if ops == [] then NewPool()
    else
      var last := ops[|ops| - 1];
      Serial(Replay(ops[..|ops| - 1]), last.start.want, last.chunks).0
  }

  /** Every operation is faithful to those before it. */
  ghost predicate Faithful(ops: seq<Operation>) {
    forall k :: 0 <= k < |ops| ==> FaithfulTo(ops[..k], ops[k])
  }

  /** `op` took at most eight chunks and answered what it would have answered alone after `before`. */
  ghost predicate FaithfulTo(before: seq<Operation>, op: Operation) {
    && |op.chunks| <= MAX_MIX_CHUNKS_PER_CALL
    && op.answer == Serial(Replay(before), op.start.want, op.chunks).1
  }

  function Consumed(ops: seq<Operation>): seq<Chunk>
    decreases |ops|
  {
    if ops == [] then [] else Consumed(ops[..|ops| - 1]) + ops[|ops| - 1].chunks
  }

  /** The chunks pool `j` took from the queue, in the order they left it. */
  function Taken(chunks: seq<Chunk>, takers: seq<nat>, j: nat): seq<Chunk>
    requires |takers| == |chunks|
    decreases |chunks|
  {
    if chunks == [] then []
    else
      var n := |chunks| - 1;
      Taken(chunks[..n], takers[..n], j) + if takers[n] == j then [chunks[n]] else []
  }

  // ---- Invariant ----

  predicate Owns(pc: Pc) { pc.At? && !pc.stage.TakePool? }

  predicate Holds(pc: Pc) {
    pc.At? && (pc.stage.Pop? || pc.stage.MixCommit? || pc.stage.CountReseed? || pc.stage.DropQueue?)
  }

  function OwnerPc(s: System, g: Gated): Pc {
    if g.owner.Some? && g.owner.value < |s.threads| then s.threads[g.owner.value] else Idle
  }

  function ConsumerOf(pc: Pc): Consumer<Chunk> { if pc.At? && pc.stage.Pop? then pc.stage.consumer else CIdle }

  function ActiveConsumer(s: System): Consumer<Chunk> {
    if s.holder.Some? && s.holder.value < |s.threads| then ConsumerOf(s.threads[s.holder.value]) else CIdle
  }

  ghost predicate OwnersInv(s: System) {
    && (forall t :: 0 <= t < |s.threads| && s.threads[t].At? ==> s.threads[t].job.pool < |s.pools|)
    && (forall t :: 0 <= t < |s.threads| && Owns(s.threads[t]) ==> s.pools[s.threads[t].job.pool].owner == Some(t))
    && (forall j :: 0 <= j < |s.pools| ==> OwnedBack(s, j))
  }

  ghost predicate OwnedBack(s: System, j: nat)
    requires j < |s.pools|
  {
    var g := s.pools[j];
    && (g.mixing <==> g.owner.Some?)
    && (g.owner.Some? ==>
          (g.owner.value < |s.threads| && Owns(s.threads[g.owner.value]) && s.threads[g.owner.value].job.pool == j))
  }

  ghost predicate HolderInv(s: System) {
    && (forall t :: 0 <= t < |s.threads| && Holds(s.threads[t]) ==> s.holder == Some(t))
    && (s.gate <==> s.holder.Some?)
    && (s.holder.Some? ==> s.holder.value < |s.threads| && Holds(s.threads[s.holder.value]))
  }

  /** How far the owner's operation has brought the pool from the serial state `base`. */
  ghost predicate Progress(base: Pool, pool: Pool, stage: Stage, job: Job) {
    var mixed := MixedPool(base, job.chunks);
    match stage
    case TakePool => pool == base && job.chunks == [] && job.bytes == []
    case TakeQueue => pool == base && job.chunks == [] && job.bytes == []
    case Pop(_) => pool == base && job.bytes == []
    case MixCommit => pool == base && job.bytes == [] && job.chunks != []
    case CountReseed => pool == Pool(mixed.state, base.reseeds) && job.bytes == [] && job.chunks != []
    case DropQueue => pool == mixed && job.bytes == []
    case CheckSeeded => pool == mixed && job.bytes == [] && job.want.Some?
    case Snapshot => Extracting(mixed, pool, job)
    case Commit(snapshot) => Extracting(mixed, pool, job) && pool.state == snapshot && |job.bytes| < job.want.value
    case DropPool(answer) => (pool, answer) == Serial(base, job.want, job.chunks)
  }

  ghost predicate Extracting(mixed: Pool, pool: Pool, job: Job) {
    && job.want.Some? && mixed.reseeds != 0 && pool.reseeds == mixed.reseeds
    && Resumes(mixed.state, job.want.value, job.bytes, pool.state)
  }

  /** A free pool is what its completed operations make it; an owned one is part of the way further. */
  ghost predicate PoolOk(g: Gated, pc: Pc) {
    && Faithful(g.ops)
    && |g.starts| == |g.ops| + (if pc.At? then 1 else 0)
    && (forall k :: 0 <= k < |g.ops| ==> g.starts[k] == g.ops[k].start)
    && (pc.Idle? ==> g.pool == Replay(g.ops))
    && (pc.At? ==> g.owner.Some? && g.starts[|g.ops|] == Start(g.owner.value, pc.job.want)
                   && |pc.job.chunks| <= MAX_MIX_CHUNKS_PER_CALL
                   && ((pc.stage.Pop? && !pc.stage.consumer.CIdle?) ==> |pc.job.chunks| < MAX_MIX_CHUNKS_PER_CALL)
                   && Progress(Replay(g.ops), g.pool, pc.stage, pc.job))
  }

  function InFlight(pc: Pc): seq<Chunk> { if pc.At? then pc.job.chunks else [] }

  ghost predicate TakenOk(popped: seq<Chunk>, takers: seq<nat>, j: nat, g: Gated, pc: Pc)
    requires |takers| == |popped|
  {
    Taken(popped, takers, j) == Consumed(g.ops) + InFlight(pc)
  }

  ghost predicate TakersInv(s: System) {
    && |s.takers| == |s.queue.popped|
    && (forall i :: 0 <= i < |s.takers| ==> s.takers[i] < |s.pools|)
  }

  ghost predicate PoolsInv(s: System)
    requires TakersInv(s)
  {
    forall j :: 0 <= j < |s.pools| ==> PoolAt(s, j)
  }

  ghost predicate PoolAt(s: System, j: nat)
    requires TakersInv(s) && j < |s.pools|
  {
    && PoolOk(s.pools[j], OwnerPc(s, s.pools[j]))
    && TakenOk(s.queue.popped, s.takers, j, s.pools[j], OwnerPc(s, s.pools[j]))
  }

  /** A thread still at the pool gate has done nothing. */
  ghost predicate WaitingInv(s: System) {
    forall t :: 0 <= t < |s.threads| && s.threads[t].At? && s.threads[t].stage.TakePool? ==>
      s.threads[t].job.chunks == [] && s.threads[t].job.bytes == []
  }

  ghost predicate Inv(s: System) {
    && OwnersInv(s) && HolderInv(s) && WaitingInv(s)
    && QueueInv(s.queue, s.producer, ActiveConsumer(s))
    && TakersInv(s) && PoolsInv(s)
  }

  // ---- Preservation ----

  /** Thread `t` moves on inside pool `j`, keeping the gates it has. */
  ghost predicate Continues(s: System, t: nat, pc: Pc, g: Gated) {
    && t < |s.threads| && Owns(s.threads[t]) && Owns(pc)
    && Holds(pc) == Holds(s.threads[t]) && pc.job.pool == s.threads[t].job.pool
    && pc.job.pool < |s.pools|
    && g.owner == s.pools[pc.job.pool].owner && g.mixing == s.pools[pc.job.pool].mixing
  }

  function Continued(s: System, t: nat, pc: Pc, g: Gated, q: Queue<Chunk>, takers: seq<nat>): System
    requires t < |s.threads| && pc.At? && pc.job.pool < |s.pools|
  {
    s.(threads := s.threads[t := pc], pools := s.pools[pc.job.pool := g], queue := q, takers := takers)
  }

  lemma ContinuedKeepsGates(s: System, t: nat, pc: Pc, g: Gated, q: Queue<Chunk>, takers: seq<nat>)
    requires OwnersInv(s) && HolderInv(s) && WaitingInv(s) && Continues(s, t, pc, g)
    ensures var s' := Continued(s, t, pc, g, q, takers);
            OwnersInv(s') && HolderInv(s') && WaitingInv(s')
    ensures var s' := Continued(s, t, pc, g, q, takers);
            ActiveConsumer(s') == if Holds(pc) then ConsumerOf(pc) else ActiveConsumer(s)
  {
    var s' := Continued(s, t, pc, g, q, takers);
    forall j | 0 <= j < |s'.pools| ensures OwnedBack(s', j) {
      assert OwnedBack(s, j);
    }
  }

  lemma OwnersApart(s: System, t: nat, pc: Pc, g: Gated, q: Queue<Chunk>, takers: seq<nat>, k: nat)
    requires OwnersInv(s) && Continues(s, t, pc, g) && k < |s.pools|
    ensures var s' := Continued(s, t, pc, g, q, takers);
            if k == pc.job.pool then s'.pools[k] == g && OwnerPc(s', g) == pc
            else s'.pools[k] == s.pools[k] && OwnerPc(s', s.pools[k]) == OwnerPc(s, s.pools[k])
  {
    assert OwnedBack(s, k) && OwnedBack(s, pc.job.pool);
  }

  lemma ContinuedKeepsPools(s: System, t: nat, pc: Pc, g: Gated, q: Queue<Chunk>, takers: seq<nat>)
    requires OwnersInv(s) && Continues(s, t, pc, g) && TakersInv(s) && PoolsInv(s)
    requires |takers| == |q.popped| && forall i :: 0 <= i < |takers| ==> takers[i] < |s.pools|
    requires PoolOk(g, pc) && TakenOk(q.popped, takers, pc.job.pool, g, pc)
    requires forall k :: 0 <= k < |s.pools| && k != pc.job.pool ==>
               Taken(q.popped, takers, k) == Taken(s.queue.popped, s.takers, k)
    ensures var s' := Continued(s, t, pc, g, q, takers);
            TakersInv(s') && PoolsInv(s')
  {
    var s' := Continued(s, t, pc, g, q, takers);
    forall k | 0 <= k < |s'.pools| ensures PoolAt(s', k) {
      assert PoolAt(s, k);
      OwnersApart(s, t, pc, g, q, takers, k);
    }
  }

  /** A step inside a pool keeps the invariant if it keeps that pool's share of it. */
  lemma ContinuedKeepsInv(s: System, t: nat, pc: Pc, g: Gated)
    requires Inv(s) && Continues(s, t, pc, g) && PoolOk(g, pc)
    requires pc.job.chunks == s.threads[t].job.chunks && g.ops == s.pools[pc.job.pool].ops
    requires ConsumerOf(pc) == ConsumerOf(s.threads[t])
    ensures Inv(Continued(s, t, pc, g, s.queue, s.takers))
  {
    ContinuedKeepsGates(s, t, pc, g, s.queue, s.takers);
    assert PoolAt(s, pc.job.pool);
    assert OwnerPc(s, s.pools[pc.job.pool]) == s.threads[t];
    ContinuedKeepsPools(s, t, pc, g, s.queue, s.takers);
  }

  lemma OwnerIsThread(s: System, t: nat)
    requires Inv(s) && t < |s.threads| && Owns(s.threads[t])
    ensures s.threads[t].job.pool < |s.pools| && OwnerPc(s, s.pools[s.threads[t].job.pool]) == s.threads[t]
    ensures PoolAt(s, s.threads[t].job.pool)
  {
  }

  /** Mixing, counting, snapshotting and committing bring the pool exactly one stage further. */
  lemma LocalProgress(base: Pool, pool: Pool, stage: Stage, job: Job)
    requires IsLocal(stage) && Progress(base, pool, stage, job)
    ensures var (pool', stage', job') := Local(pool, stage, job);
            && Progress(base, pool', stage', job')
            && job' == job.(bytes := job'.bytes)
            && !stage'.TakePool? && !stage'.Pop? && Holds(At(stage', job')) == Holds(At(stage, job))
  {
    if stage.Commit? {
      BlockResumes(MixedPool(base, job.chunks).state, job.want.value, job.bytes, stage.snapshot);
    } else if stage.Snapshot? && |job.bytes| == job.want.value {
      assert job.bytes + [] == job.bytes;
    }
  }

  lemma LocalKeepsInv(s: System, t: nat)
    requires Inv(s) && Enabled(s, t) && IsLocal(s.threads[t].stage)
    ensures Inv(LocalStep(s, t))
  {
    OwnerIsThread(s, t);
    var (job, g) := (s.threads[t].job, s.pools[s.threads[t].job.pool]);
    LocalProgress(Replay(g.ops), g.pool, s.threads[t].stage, job);
    var (pool', stage', job') := Local(g.pool, s.threads[t].stage, job);
    ContinuedKeepsInv(s, t, At(stage', job'), g.(pool := pool'));
  }

  lemma SkipQueueKeepsInv(s: System, t: nat)
    requires Inv(s) && Enabled(s, t) && s.threads[t].stage.TakeQueue? && s.gate
    ensures Inv(TakeQueueStep(s, t))
  {
    OwnerIsThread(s, t);
    var (job, g) := (s.threads[t].job, s.pools[s.threads[t].job.pool]);
    SkippedProgress(Replay(g.ops), job);
    ContinuedKeepsInv(s, t, At(AfterMix(job.want), job), g);
    assert s.pools[job.pool := g] == s.pools;
  }

  lemma SkippedProgress(base: Pool, job: Job)
    requires job.chunks == [] && job.bytes == []
    ensures MixedPool(base, []) == base && Progress(base, base, AfterMix(job.want), job)
  {
  }

  /** A thread outside every pool changes nothing that matters. */
  lemma OutsideKeepsInv(s: System, t: nat, pc: Pc, replies: seq<Reply>)
    requires Inv(s) && t < |s.threads| && !Owns(s.threads[t]) && !Owns(pc)
    requires pc.At? ==> pc.job.pool < |s.pools| && pc.job.chunks == [] && pc.job.bytes == []
    ensures Inv(s.(threads := s.threads[t := pc], replies := replies))
  {
    var s' := s.(threads := s.threads[t := pc], replies := replies);
    forall j | 0 <= j < |s.pools| ensures OwnedBack(s', j) && PoolAt(s', j) {
      assert OwnedBack(s, j) && PoolAt(s, j);
      assert OwnerPc(s', s'.pools[j]) == OwnerPc(s, s.pools[j]);
    }
  }

  predicate SamePool(s: System, s': System, k: nat)
    requires k < |s.pools| == |s'.pools|
  {
    s'.pools[k] == s.pools[k] && OwnerPc(s', s.pools[k]) == OwnerPc(s, s.pools[k])
  }

  /** Pools are independent: only the one a step works on has to be looked at. */
  lemma OthersKeepPools(s: System, s': System, j: nat)
    requires TakersInv(s) && PoolsInv(s) && j < |s.pools| == |s'.pools|
    requires s'.queue == s.queue && s'.takers == s.takers
    requires forall k :: 0 <= k < |s.pools| && k != j ==> SamePool(s, s', k)
    requires PoolOk(s'.pools[j], OwnerPc(s', s'.pools[j]))
    requires TakenOk(s.queue.popped, s.takers, j, s'.pools[j], OwnerPc(s', s'.pools[j]))
    ensures TakersInv(s') && PoolsInv(s')
  {
    forall k | 0 <= k < |s.pools| ensures PoolAt(s', k) {
      assert PoolAt(s, k);
      assert k != j ==> SamePool(s, s', k);
    }
  }

  lemma TakePoolGates(s: System, t: nat)
    requires OwnersInv(s) && HolderInv(s) && WaitingInv(s)
    requires Enabled(s, t) && s.threads[t].stage.TakePool? && !s.pools[s.threads[t].job.pool].mixing
    ensures var s' := TakePoolStep(s, t);
            && OwnersInv(s') && HolderInv(s') && WaitingInv(s') && ActiveConsumer(s') == ActiveConsumer(s)
            && (forall k :: 0 <= k < |s.pools| && k != s.threads[t].job.pool ==> SamePool(s, s', k))
  {
    var s' := TakePoolStep(s, t);
    assert OwnedBack(s, s.threads[t].job.pool);
    forall k | 0 <= k < |s.pools| ensures OwnedBack(s', k) {
      assert OwnedBack(s, k);
    }
    forall k | 0 <= k < |s.pools| && k != s.threads[t].job.pool ensures SamePool(s, s', k) {
      assert OwnedBack(s, k);
    }
  }

  lemma TakePoolKeepsInv(s: System, t: nat)
    requires Inv(s) && Enabled(s, t) && s.threads[t].stage.TakePool? && !s.pools[s.threads[t].job.pool].mixing
    ensures Inv(TakePoolStep(s, t))
  {
    TakePoolGates(s, t);
    var j := s.threads[t].job.pool;
    assert OwnedBack(s, j) && PoolAt(s, j);
    OthersKeepPools(s, TakePoolStep(s, t), j);
  }

  lemma QueueGateOwners(s: System, t: nat, stage: Stage)
    requires OwnersInv(s) && WaitingInv(s) && t < |s.threads| && Owns(s.threads[t]) && !stage.TakePool?
    ensures var s' := Moved(s, t, stage);
            && OwnersInv(s') && WaitingInv(s')
            && (forall k :: 0 <= k < |s.pools| && k != s.threads[t].job.pool ==> SamePool(s, s', k))
  {
    var s' := Moved(s, t, stage);
    forall k | 0 <= k < |s.pools| ensures OwnedBack(s', k) {
      assert OwnedBack(s, k);
    }
    forall k | 0 <= k < |s.pools| && k != s.threads[t].job.pool ensures SamePool(s, s', k) {
      assert OwnedBack(s, k);
    }
  }

  /** Taking or dropping the queue gate leaves every pool's share of the invariant alone. */
  lemma QueueGatePools(s: System, t: nat, stage: Stage)
    requires Inv(s) && t < |s.threads| && Owns(s.threads[t]) && !stage.TakePool?
    requires s.threads[t].job.pool < |s.pools|
    requires PoolOk(s.pools[s.threads[t].job.pool], s.threads[t].(stage := stage))
    ensures var s' := Moved(s, t, stage);
            OwnersInv(s') && WaitingInv(s') && TakersInv(s') && PoolsInv(s')
  {
    QueueGateOwners(s, t, stage);
    OwnerIsThread(s, t);
    OthersKeepPools(s, Moved(s, t, stage), s.threads[t].job.pool);
  }

  lemma TakeQueueKeepsInv(s: System, t: nat)
    requires Inv(s) && Enabled(s, t) && s.threads[t].stage.TakeQueue? && !s.gate
    ensures Inv(TakeQueueStep(s, t))
  {
    OwnerIsThread(s, t);
    QueueGatePools(s, t, Pop(CIdle));
    TakeQueueHolder(s, t);
    PoolsKept(Moved(s, t, Pop(CIdle)), TakeQueueStep(s, t));
  }

  lemma TakeQueueHolder(s: System, t: nat)
    requires HolderInv(s) && Enabled(s, t) && s.threads[t].stage.TakeQueue? && !s.gate
    ensures HolderInv(TakeQueueStep(s, t)) && ActiveConsumer(TakeQueueStep(s, t)) == ActiveConsumer(s) == CIdle
  {
  }

  lemma DropQueueKeepsInv(s: System, t: nat)
    requires Inv(s) && Enabled(s, t) && s.threads[t].stage.DropQueue?
    ensures Inv(DropQueueStep(s, t))
  {
    OwnerIsThread(s, t);
    DroppedProgress(s.pools[s.threads[t].job.pool], s.threads[t]);
    QueueGatePools(s, t, AfterMix(s.threads[t].job.want));
    DropQueueHolder(s, t);
    PoolsKept(Moved(s, t, AfterMix(s.threads[t].job.want)), DropQueueStep(s, t));
  }

  lemma DroppedProgress(g: Gated, pc: Pc)
    requires pc.At? && pc.stage.DropQueue? && PoolOk(g, pc)
    ensures PoolOk(g, pc.(stage := AfterMix(pc.job.want)))
  {
  }

  lemma DropQueueHolder(s: System, t: nat)
    requires HolderInv(s) && Enabled(s, t) && s.threads[t].stage.DropQueue?
    ensures HolderInv(DropQueueStep(s, t)) && ActiveConsumer(DropQueueStep(s, t)) == ActiveConsumer(s) == CIdle
  {
  }

  lemma PoolsKept(s: System, s': System)
    requires OwnersInv(s) && WaitingInv(s) && TakersInv(s) && PoolsInv(s)
    requires s'.pools == s.pools && s'.threads == s.threads && s'.queue == s.queue && s'.takers == s.takers
    ensures OwnersInv(s') && WaitingInv(s') && TakersInv(s') && PoolsInv(s')
  {
    forall j | 0 <= j < |s.pools| ensures OwnedBack(s', j) && PoolAt(s', j) {
      assert OwnedBack(s, j) && PoolAt(s, j);
      assert OwnerPc(s', s.pools[j]) == OwnerPc(s, s.pools[j]);
    }
  }

  lemma ReplaySnoc(ops: seq<Operation>, op: Operation)
    ensures Replay(ops + [op]) == Serial(Replay(ops), op.start.want, op.chunks).0
    ensures Consumed(ops + [op]) == Consumed(ops) + op.chunks
  {
  }

  lemma FaithfulSnoc(ops: seq<Operation>, op: Operation)
    requires Faithful(ops) && FaithfulTo(ops, op)
    ensures Faithful(ops + [op])
  {
    var ops' := ops + [op];
    forall k | 0 <= k < |ops'| ensures FaithfulTo(ops'[..k], ops'[k]) {
      if k < |ops| {
        assert ops'[..k] == ops[..k];
        assert FaithfulTo(ops[..k], ops[k]);
      } else {
        assert ops'[..k] == ops;
      }
    }
  }

  lemma DropPoolGates(s: System, t: nat)
    requires OwnersInv(s) && HolderInv(s) && WaitingInv(s) && Enabled(s, t) && s.threads[t].stage.DropPool?
    ensures var s' := DropPoolStep(s, t);
            && OwnersInv(s') && HolderInv(s') && WaitingInv(s') && ActiveConsumer(s') == ActiveConsumer(s)
            && (forall k :: 0 <= k < |s.pools| && k != s.threads[t].job.pool ==> SamePool(s, s', k))
  {
    var s' := DropPoolStep(s, t);
    forall k | 0 <= k < |s.pools| ensures OwnedBack(s', k) {
      assert OwnedBack(s, k);
    }
    forall k | 0 <= k < |s.pools| && k != s.threads[t].job.pool ensures SamePool(s, s', k) {
      assert OwnedBack(s, k);
    }
  }

  /** A finished operation joins the serial history of its pool. */
  lemma FinishedShare(g: Gated, op: Operation)
    requires Faithful(g.ops) && |op.chunks| <= MAX_MIX_CHUNKS_PER_CALL
    requires |g.starts| == |g.ops| + 1 && g.starts[|g.ops|] == op.start
    requires forall k :: 0 <= k < |g.ops| ==> g.starts[k] == g.ops[k].start
    requires (g.pool, op.answer) == Serial(Replay(g.ops), op.start.want, op.chunks)
    ensures PoolOk(Finished(g, op), Idle)
  {
    ReplaySnoc(g.ops, op);
    FaithfulSnoc(g.ops, op);
  }

  lemma DropPoolKeepsInv(s: System, t: nat)
    requires Inv(s) && Enabled(s, t) && s.threads[t].stage.DropPool?
    ensures Inv(DropPoolStep(s, t))
  {
    OwnerIsThread(s, t);
    DropPoolGates(s, t);
    var (pc, g) := (s.threads[t], s.pools[s.threads[t].job.pool]);
    var op := Operation(Start(t, pc.job.want), pc.job.chunks, pc.stage.answer);
    FinishedShare(g, op);
    ReplaySnoc(g.ops, op);
    assert Consumed(g.ops + [op]) + [] == Consumed(g.ops + [op]);
    OthersKeepPools(s, DropPoolStep(s, t), pc.job.pool);
  }

  // ---- The pop loop ----

  lemma ReleaseShares(s: System, item: Chunk, j: nat)
    requires TakersInv(s)
    ensures Taken(s.queue.popped + [item], s.takers + [j], j) == Taken(s.queue.popped, s.takers, j) + [item]
    ensures forall k :: 0 <= k < |s.pools| && k != j ==>
              Taken(s.queue.popped + [item], s.takers + [j], k) == Taken(s.queue.popped, s.takers, k)
  {
  }

  lemma ReleaseProgress(popped: seq<Chunk>, takers: seq<nat>, j: nat, g: Gated, pc: Pc)
    requires pc.At? && pc.stage.Pop? && pc.stage.consumer.CRelease? && PoolOk(g, pc)
    requires |takers| == |popped| && TakenOk(popped, takers, j, g, pc)
    ensures var pc' := At(Pop(CIdle), pc.job.(chunks := pc.job.chunks + [pc.stage.consumer.item]));
            && PoolOk(g, pc')
            && Taken(popped, takers, j) + [pc.stage.consumer.item] == Consumed(g.ops) + InFlight(pc')
  {
  }

  lemma ReleasedKeepsPools(s: System, t: nat, q: Queue<Chunk>)
    requires Inv(s) && Enabled(s, t) && s.threads[t].stage.Pop? && s.threads[t].stage.consumer.CRelease?
    requires q.popped == s.queue.popped + [s.threads[t].stage.consumer.item]
    ensures var (job, item) := (s.threads[t].job, s.threads[t].stage.consumer.item);
            var pc := At(Pop(CIdle), job.(chunks := job.chunks + [item]));
            var s' := Continued(s, t, pc, s.pools[job.pool], q, s.takers + [job.pool]);
            TakersInv(s') && PoolsInv(s')
  {
    OwnerIsThread(s, t);
    var (job, item) := (s.threads[t].job, s.threads[t].stage.consumer.item);
    var pc := At(Pop(CIdle), job.(chunks := job.chunks + [item]));
    ReleaseShares(s, item, job.pool);
    ReleaseProgress(s.queue.popped, s.takers, job.pool, s.pools[job.pool], s.threads[t]);
    ContinuedKeepsPools(s, t, pc, s.pools[job.pool], q, s.takers + [job.pool]);
  }

  lemma ReleaseKeepsInv(s: System, t: nat)
    requires Inv(s) && Enabled(s, t) && s.threads[t].stage.Pop? && s.threads[t].stage.consumer.CRelease?
    ensures Inv(PopStep(s, t))
  {
    var (job, c) := (s.threads[t].job, s.threads[t].stage.consumer);
    var pc := At(Pop(CIdle), job.(chunks := job.chunks + [c.item]));
    var q := ConsumerStep(s.queue, c).0;
    ConsumerKeepsInv(s.queue, s.producer, c);
    ReleasedKeepsPools(s, t, q);
    ContinuedKeepsGates(s, t, pc, s.pools[job.pool], q, s.takers + [job.pool]);
    assert s.pools[job.pool := s.pools[job.pool]] == s.pools;
    assert PopStep(s, t) == Continued(s, t, pc, s.pools[job.pool], q, s.takers + [job.pool]);
  }

  /** The other steps of the loop: start a pop, go through it, or leave the loop. */
  function LoopStage(queue: Queue<Chunk>, c: Consumer<Chunk>, chunks: seq<Chunk>): Stage
    requires Sized(queue) && !c.CRelease?
  {
    if c.CIdle? then if |chunks| < MAX_MIX_CHUNKS_PER_CALL then Pop(CLoadTail) else AfterPops(chunks)
    else if ConsumerStep(queue, c).1.CIdle? then AfterPops(chunks)
    else Pop(ConsumerStep(queue, c).1)
  }

  lemma LoopProgress(queue: Queue<Chunk>, g: Gated, pc: Pc)
    requires Sized(queue) && pc.At? && pc.stage.Pop? && !pc.stage.consumer.CRelease? && PoolOk(g, pc)
    ensures PoolOk(g, pc.(stage := LoopStage(queue, pc.stage.consumer, pc.job.chunks)))
    ensures Holds(pc.(stage := LoopStage(queue, pc.stage.consumer, pc.job.chunks)))
  {
  }

  lemma LoopKeepsQueue(s: System, t: nat)
    requires Enabled(s, t) && s.threads[t].stage.Pop? && !s.threads[t].stage.consumer.CRelease?
    requires QueueInv(s.queue, s.producer, s.threads[t].stage.consumer)
    ensures var stage := LoopStage(s.queue, s.threads[t].stage.consumer, s.threads[t].job.chunks);
            && PopStep(s, t) == Moved(s, t, stage).(queue := PopStep(s, t).queue)
            && PopStep(s, t).queue.popped == s.queue.popped
            && QueueInv(PopStep(s, t).queue, s.producer, ConsumerOf(At(stage, s.threads[t].job)))
  {
    ConsumerKeepsInv(s.queue, s.producer, s.threads[t].stage.consumer);
  }

  lemma PopKeepsInv(s: System, t: nat)
    requires Inv(s) && Enabled(s, t) && s.threads[t].stage.Pop? && !s.threads[t].stage.consumer.CRelease?
    ensures Inv(PopStep(s, t))
  {
    OwnerIsThread(s, t);
    var (job, q) := (s.threads[t].job, PopStep(s, t).queue);
    var g := s.pools[job.pool];
    var pc := At(LoopStage(s.queue, s.threads[t].stage.consumer, job.chunks), job);
    LoopProgress(s.queue, g, s.threads[t]);
    LoopKeepsQueue(s, t);
    assert s.pools[job.pool := g] == s.pools;
    ContinuedKeepsGates(s, t, pc, g, q, s.takers);
    ContinuedKeepsPools(s, t, pc, g, q, s.takers);
  }

  // ---- Every run ----

  lemma AdvanceKeepsInv(s: System, t: nat)
    requires Inv(s) && Enabled(s, t)
    ensures Inv(Advance(s, t))
  {
    var pc := s.threads[t];
    match pc.stage
    case TakePool =>
      if s.pools[pc.job.pool].mixing { OutsideKeepsInv(s, t, Idle,
                                                       TakePoolStep(s, t).replies); } else { TakePoolKeepsInv(s, t); }
    case TakeQueue => if s.gate { SkipQueueKeepsInv(s, t); } else { TakeQueueKeepsInv(s, t); }
    case Pop(c) => if c.CRelease? { ReleaseKeepsInv(s, t); } else { PopKeepsInv(s, t); }
    case DropQueue => DropQueueKeepsInv(s, t);
    case DropPool(_) => DropPoolKeepsInv(s, t);
    case _ => LocalKeepsInv(s, t);
  }

  lemma ProducerKeepsSystem(s: System, q: Queue<Chunk>, p: Producer<Chunk>)
    requires Inv(s) && QueueInv(q, p, ActiveConsumer(s)) && q.popped == s.queue.popped
    ensures Inv(s.(queue := q, producer := p))
  {
    var s' := s.(queue := q, producer := p);
    forall j | 0 <= j < |s.pools| ensures OwnedBack(s', j) && PoolAt(s', j) {
      assert OwnedBack(s, j) && PoolAt(s, j);
      assert OwnerPc(s', s.pools[j]) == OwnerPc(s, s.pools[j]);
    }
  }

  lemma StepKeepsInv(s: System, m: Move)
    requires Inv(s)
    ensures Inv(Step(s, m))
  {
    match m
    case Begin(t, pool, want) =>
      if t < |s.threads| && s.threads[t].Idle? && pool < |s.pools| {
        OutsideKeepsInv(s, t, At(TakePool, Job(pool, want, [], [])), s.replies);
      }
    case Push(chunk) =>
      if s.producer.PIdle? {
        ProducerKeepsSystem(s, s.queue, PLoadHead(chunk));
      }
    case Produce =>
      ProducerKeepsInv(s.queue, s.producer, ActiveConsumer(s));
      ProducerKeepsSystem(s, ProducerStep(s.queue, s.producer).0, ProducerStep(s.queue, s.producer).1);
    case Go(t) =>
      if Enabled(s, t) {
        AdvanceKeepsInv(s, t);
      }
  }

  lemma {:induction false} RunKeepsInv(s: System, moves: seq<Move>)
    requires Inv(s)
    ensures Inv(Run(s, moves))
    decreases |moves|
  {
    if moves != [] {
      StepKeepsInv(s, moves[0]);
      RunKeepsInv(Step(s, moves[0]), moves[1..]);
    }
  }

  lemma FreshInv(s: System)
    requires Fresh(s)
    ensures Inv(s)
  {
    assert Pow2(6) == 64;
    assert Capacity(64);
    forall j | 0 <= j < |s.pools| ensures OwnedBack(s, j) && PoolAt(s, j) {
    }
  }

  ghost predicate PoolTaken(s: System, j: nat) {
    exists u :: 0 <= u < |s.threads| && Owns(s.threads[u]) && s.threads[u].job.pool == j
  }

  /** A call is refused, or mixes nothing, exactly when another thread holds the gate it needs. */
  lemma GatesRefuseExactly(s: System, t: nat)
    requires Inv(s) && Enabled(s, t)
    ensures var (pc, pc') := (s.threads[t], Advance(s, t).threads[t]);
            && (pc.stage.TakePool? ==>
                  (pc'.Idle? <==> PoolTaken(s, pc.job.pool)))
            && (pc.stage.TakePool? && pc'.Idle? ==>
                  Advance(s, t) == s.(threads := s.threads[t := Idle],
                                      replies := s.replies + [Reply(t, if pc.job.want.None? then Mixing else Busy)]))
            && (pc.stage.TakeQueue? ==>
                  (pc' == At(Pop(CIdle), pc.job) <==> !exists u :: 0 <= u < |s.threads| && Holds(s.threads[u])))
  {
    var pc := s.threads[t];
    if pc.stage.TakePool? {
      assert OwnedBack(s, pc.job.pool);
    }
    if pc.stage.TakeQueue? && s.gate {
      assert Holds(s.threads[s.holder.value]);
    }
  }

  /** The pop loop ends exactly when it has eight chunks or has found the queue empty. */
  lemma LoopEndsExactly(s: System, t: nat)
    requires Inv(s) && Enabled(s, t) && s.threads[t].stage.Pop?
    ensures var (c, job) := (s.threads[t].stage.consumer, s.threads[t].job);
            !Advance(s, t).threads[t].stage.Pop?
            <==> (c.CIdle? && |job.chunks| == MAX_MIX_CHUNKS_PER_CALL)
                 || (c.CLoadHead? && |s.queue.pushed| == |s.queue.popped|)
  {
    OwnerIsThread(s, t);
    FullAndEmptyAreExact(s.queue, s.producer, s.threads[t].stage.consumer);
  }

  /** At most one consumer is inside the queue, and no two threads are inside one pool. */
  lemma GatesExclude(s: System, moves: seq<Move>, t: nat, u: nat)
    requires Fresh(s)
    requires var e := Run(s, moves); t < |e.threads| && u < |e.threads| && t != u
    ensures var e := Run(s, moves);
            && !(Holds(e.threads[t]) && Holds(e.threads[u]))
            && (Owns(e.threads[t]) && Owns(e.threads[u]) ==> e.threads[t].job.pool != e.threads[u].job.pool)
  {
    FreshInv(s);
    RunKeepsInv(s, moves);
  }

  /** Every chunk leaves the queue in push order and enters exactly one pool, at most eight per operation. */
  lemma ChunksEnterOnePool(s: System, moves: seq<Move>, j: nat)
    requires Fresh(s) && j < |Run(s, moves).pools|
    ensures var e := Run(s, moves);
            && |e.takers| == |e.queue.popped| && e.queue.popped <= e.queue.pushed
            && (forall i :: 0 <= i < |e.takers| ==> e.takers[i] < |e.pools|)
            && Taken(e.queue.popped, e.takers, j)
               == Consumed(e.pools[j].ops) + InFlight(OwnerPc(e, e.pools[j]))
            && |InFlight(OwnerPc(e, e.pools[j]))| <= MAX_MIX_CHUNKS_PER_CALL
            && (forall k :: 0 <= k < |e.pools[j].ops| ==> |e.pools[j].ops[k].chunks| <= MAX_MIX_CHUNKS_PER_CALL)
  {
    FreshInv(s);
    RunKeepsInv(s, moves);
    var g := Run(s, moves).pools[j];
    assert PoolAt(Run(s, moves), j);
    forall k | 0 <= k < |g.ops| ensures |g.ops[k].chunks| <= MAX_MIX_CHUNKS_PER_CALL {
      assert FaithfulTo(g.ops[..k], g.ops[k]);
    }
  }

  /**
   Operations on a pool are serial in the order they took its gate: each answered what it would have
   answered alone after those before it, a free pool is in the state they leave, and nothing changed
   the pool between an extraction's snapshot and its commit.
   */
  lemma PoolOperationsSerialize(s: System, moves: seq<Move>, j: nat)
    requires Fresh(s) && j < |Run(s, moves).pools|
    ensures var e := Run(s, moves);
            var (g, pc) := (e.pools[j], OwnerPc(e, e.pools[j]));
            && Faithful(g.ops)
            && |g.ops| <= |g.starts| <= |g.ops| + 1
            && (forall k :: 0 <= k < |g.ops| ==> g.ops[k].start == g.starts[k])
            && (!g.mixing ==> |g.starts| == |g.ops| && g.pool == Replay(g.ops))
            && (g.mixing ==> pc.At? && g.owner.Some? && |g.starts| == |g.ops| + 1)
            && (g.mixing ==> g.starts[|g.ops|] == Start(g.owner.value, pc.job.want))
            && (pc.At? && pc.stage.Commit? ==> g.pool.state == pc.stage.snapshot)
  {
    FreshInv(s);
    RunKeepsInv(s, moves);
    assert PoolAt(Run(s, moves), j) && OwnedBack(Run(s, moves), j);
  }
}
