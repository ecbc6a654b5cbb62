/**
 What the calls of the DMA pool answer: on every run, whatever the other threads do, and when a call is
 left to run alone from any point of it.
 */
module DmaCalls {
  import opened Words
  import opened DmaPool
  import opened DmaTokens

  // ---- Every answer ----

  /** What a step of thread `t` reports, from the call it is in and the history of tokens. */
  function Answer(p: Pool, t: nat, a: Action): seq<Out>
    requires WellSized(p) && t < |p.threads|
  {
    match (p.threads[t], a)
    case (Idle, BeginFree(slot, generation)) =>
      if slot >= p.n then [OutOfBounds] else if generation >= ALLOCATED_BIT then [DoubleFree] else []
    case (FreeCas(slot, generation), Go(_)) =>
      if Live(p, slot, generation) then [DidFree(slot, generation)] else [DoubleFree]
    case (AllocNext(observed, _), Go(_)) => if HeadIndex(observed) == FREE_LIST_EMPTY then [OutOfMemory] else []
    case (ClaimCas(slot, _), Go(_)) =>
      if slot < p.n then [DidAlloc(slot, (p.allocs[slot] + 1) % ALLOCATED_BIT)] else []
    case _ => []
  }

  lemma OwnershipAnswers(p: Pool, t: nat, spurious: bool)
    requires FullInv(p) && t < |p.threads| && WithinGenerationBound(p, t)
    requires p.threads[t].ClaimCas? || p.threads[t].FreeCas?
    ensures Step(p, t, Go(spurious)).log == p.log + Answer(p, t, Go(spurious))
  {
    assert ThreadInv(p, p.threads[t]);
    if p.threads[t].ClaimCas? {
      ClaimIsFresh(p, t);
    } else {
      FreeDecidesAt(p, t);
    }
  }

  lemma AnswersAt(p: Pool, t: nat, a: Action)
    requires FullInv(p) && t < |p.threads| && WithinGenerationBound(p, t)
    ensures Step(p, t, a).log == p.log + Answer(p, t, a)
  {
    if a.Go? && (p.threads[t].ClaimCas? || p.threads[t].FreeCas?) {
      OwnershipAnswers(p, t, a.spurious);
    }
  }

  /** On every run within both limits each step reports exactly that, and nothing else is ever reported. */
  lemma AnswersOnEveryRun(mem: seq<seq<bv8>>, threads: nat, turns: seq<Turn>, t: nat, a: Action)
    requires 0 < |mem| <= FREE_LIST_EMPTY && WithinBounds(Fresh(mem, threads), turns)
    requires var p := Run(Fresh(mem, threads), turns); t < |p.threads| && WithinGenerationBound(p, t)
    ensures var p := Run(Fresh(mem, threads), turns); WellSized(p) && Step(p, t, a).log == p.log + Answer(p, t, a)
  {
    FreshInv(mem, threads);
    RunKeepsInv(Fresh(mem, threads), turns);
    AnswersAt(Run(Fresh(mem, threads), turns), t, a);
  }

  // ---- Out of memory ----

  predicate Allocating(p: Pool, t: nat) {
    t < |p.threads| && (p.threads[t].AllocLoad? || p.threads[t].AllocNext? || p.threads[t].AllocCas?)
  }

  /** The list was empty after `k` turns, and thread `t` has been in one allocation since. */
  ghost predicate EmptySince(start: Pool, turns: seq<Turn>, t: nat, k: int) {
    && 0 <= k <= |turns| && Run(start, turns[..k]).list == []
    && (forall j :: k <= j <= |turns| ==> Allocating(Run(start, turns[..j]), t))
  }

  /** The thread is about to report that there is no slot. */
  predicate SawEmpty(p: Pool, t: nat) {
    t < |p.threads| && p.threads[t].AllocNext? && HeadIndex(p.threads[t].observed) == FREE_LIST_EMPTY
  }

  /** A thread comes to see an empty list only by loading the head of one. */
  lemma SeesEmptyNow(p: Pool, t: nat, a: Action, u: nat)
    requires PoolInv(p) && SawEmpty(Step(p, t, a), u) && !SawEmpty(p, u)
    ensures Allocating(p, u) && p.list == []
  {
    PackRoundTrip(Nth(p.list, 0), p.updates % TAGS);
  }

  lemma SinceExtends(start: Pool, turns: seq<Turn>, turn: Turn, t: nat, k: int)
    requires Allocating(Run(start, turns + [turn]), t)
    requires EmptySince(start, turns, t, k)
    ensures EmptySince(start, turns + [turn], t, k)
  {
    var longer := turns + [turn];
    forall j | k <= j <= |longer| ensures Allocating(Run(start, longer[..j]), t) {
      if j <= |turns| {
        assert longer[..j] == turns[..j];
      } else {
        assert longer[..j] == longer;
      }
    }
    assert longer[..k] == turns[..k];
  }

  lemma {:induction false} SawEmptyMeansEmpty(start: Pool, turns: seq<Turn>, t: nat) returns (k: nat)
    requires PoolInv(start) && MemInv(start) && WithinTags(start, turns)
    requires !SawEmpty(start, t) && SawEmpty(Run(start, turns), t)
    ensures EmptySince(start, turns, t, k)
    decreases |turns|
  {
    assert turns != [];
    var before, last := turns[..|turns| - 1], turns[|turns| - 1];
    assert turns == before + [last];
    RunConcat(start, before, [last]);
    RunKeepsPool(start, before);
    var p := Run(start, before);
    assert [last][1..] == [] && Run(start, turns) == Step(p, last.thread, last.action);
    if SawEmpty(p, t) {
      k := SawEmptyMeansEmpty(start, before, t);
    } else {
      SeesEmptyNow(p, last.thread, last.action, t);
      k := |before|;
      assert before[..k] == before;
    }
    SinceExtends(start, before, last, t, k);
  }

  /** On every run within the tag limit, an allocation that reports no memory found the list empty during that call. */
  lemma OutOfMemoryMeansEmpty(mem: seq<seq<bv8>>, threads: nat, turns: seq<Turn>, t: nat, a: Action)
    requires 0 < |mem| <= FREE_LIST_EMPTY && WithinTags(Fresh(mem, threads), turns)
    requires var p := Run(Fresh(mem, threads), turns); Step(p, t, a).log == p.log + [OutOfMemory]
    ensures exists k :: EmptySince(Fresh(mem, threads), turns, t, k)
  {
    FreshInv(mem, threads);
    var p := Run(Fresh(mem, threads), turns);
    RunKeepsPool(Fresh(mem, threads), turns);
    assert SawEmpty(p, t) by {
      OnlyEmptyReportsNoMemory(p, t, a);
    }
    var k := SawEmptyMeansEmpty(Fresh(mem, threads), turns, t);
  }

  lemma OnlyEmptyReportsNoMemory(p: Pool, t: nat, a: Action)
    requires PoolInv(p) && Step(p, t, a).log == p.log + [OutOfMemory]
    ensures SawEmpty(p, t) && a.Go?
  {
    var log := Step(p, t, a).log;
    assert log[|p.log|] == OutOfMemory;
  }

  // ---- A free, from its call to its answer ----

  lemma OtherKeepsThread(p: Pool, t: nat, a: Action, u: nat)
    requires u < |p.threads| && t != u
    ensures var q := Step(p, t, a); |q.threads| == |p.threads| && q.threads[u] == p.threads[u] && q.n == p.n
  {
  }

  lemma {:induction false} OthersKeepThread(p: Pool, turns: seq<Turn>, t: nat)
    requires t < |p.threads| && forall i :: 0 <= i < |turns| ==> turns[i].thread != t
    ensures var q := Run(p, turns); |q.threads| == |p.threads| && q.threads[t] == p.threads[t] && q.n == p.n
    decreases |turns|
  {
    if turns != [] {
      OtherKeepsThread(p, turns[0].thread, turns[0].action, t);
      OthersKeepThread(Step(p, turns[0].thread, turns[0].action), turns[1..], t);
    }
  }

  /** The answer to a free called at `p`, with `between` done by the other threads before its compare-exchange. */
  ghost predicate FreeAnswered(p: Pool, t: nat, slot: nat, generation: u64, between: seq<Turn>, spurious: bool) {
    var called := Step(p, t, BeginFree(slot, generation));
    && called.log == p.log + (if slot >= p.n then [OutOfBounds]
                              else if generation >= ALLOCATED_BIT then [DoubleFree] else [])
    && (slot < p.n && generation < ALLOCATED_BIT ==> WordAnswered(Run(called, between), t, slot, generation, spurious))
  }

  ghost predicate WordAnswered(q: Pool, t: nat, slot: nat, generation: u64, spurious: bool) {
    Step(q, t, Go(spurious)).log
    == q.log + [if Live(q, slot, generation) then DidFree(slot, generation) else DoubleFree]
  }

  lemma WordAnswers(q: Pool, t: nat, slot: nat, generation: u64, spurious: bool)
    requires FullInv(q) && t < |q.threads| && q.threads[t] == FreeCas(slot, generation)
    ensures WordAnswered(q, t, slot, generation, spurious)
  {
    OwnershipAnswers(q, t, spurious);
  }

  lemma FreeReachesWord(p: Pool, t: nat, slot: nat, generation: u64, between: seq<Turn>)
    requires FullInv(p) && t < |p.threads| && p.threads[t].Idle? && slot < p.n && generation < ALLOCATED_BIT
    requires WithinBounds(Step(p, t, BeginFree(slot, generation)), between)
    requires forall i :: 0 <= i < |between| ==> between[i].thread != t
    ensures var q := Run(Step(p, t, BeginFree(slot, generation)), between);
            FullInv(q) && t < |q.threads| && q.threads[t] == FreeCas(slot, generation)
  {
    var called := Step(p, t, BeginFree(slot, generation));
    StepKeepsInv(p, t, BeginFree(slot, generation));
    StepKeepsMem(p, t, BeginFree(slot, generation));
    StepKeepsTokens(p, t, BeginFree(slot, generation));
    RunKeepsInv(called, between);
    OthersKeepThread(called, between, t);
  }

  lemma RefusedAtOnce(p: Pool, t: nat, slot: nat, generation: u64)
    requires WellSized(p) && t < |p.threads| && p.threads[t].Idle?
    ensures Step(p, t, BeginFree(slot, generation)).log
            == p.log + if slot >= p.n then [OutOfBounds] else if generation >= ALLOCATED_BIT then [DoubleFree] else []
  {
  }

  /**
   A free of any index and generation, with anything the other threads do in between: an index out of bounds
   and an oversized generation are refused at once, and otherwise the answer is whether the token is live when
   its word is exchanged.
   */
  lemma FreeAnswers(mem: seq<seq<bv8>>, threads: nat, before: seq<Turn>, t: nat, slot: nat, generation: u64,
                    between: seq<Turn>, spurious: bool)
    requires 0 < |mem| <= FREE_LIST_EMPTY && WithinBounds(Fresh(mem, threads), before)
    requires var p := Run(Fresh(mem, threads), before);
             t < |p.threads| && p.threads[t].Idle? && WithinBounds(Step(p, t, BeginFree(slot, generation)), between)
    requires forall i :: 0 <= i < |between| ==> between[i].thread != t
    ensures FreeAnswered(Run(Fresh(mem, threads), before), t, slot, generation, between, spurious)
  {
    FreshInv(mem, threads);
    RunKeepsInv(Fresh(mem, threads), before);
    var p := Run(Fresh(mem, threads), before);
    if slot < p.n && generation < ALLOCATED_BIT {
      FreeReachesWord(p, t, slot, generation, between);
      WordAnswers(Run(Step(p, t, BeginFree(slot, generation)), between), t, slot, generation, spurious);
    }
    RefusedAtOnce(p, t, slot, generation);
  }

  // ---- A call left alone, from any point of it ----

  /** `steps` further steps of thread `t`, with no spurious failure and no other thread in between. */
  function Solo(p: Pool, t: nat, steps: nat): Pool
    decreases steps
  {
    if steps == 0 then p else Solo(Step(p, t, Go(false)), t, steps - 1)
  }

  /** What an allocation of the head slot leaves. */
  ghost predicate TookHead(p: Pool, q: Pool, t: nat)
    requires WellSized(p) && t < |p.threads|
  {
    && p.list != [] && p.list[0] < p.n
    && var generation := NextGeneration(p.own[p.list[0]]);
    && q.list == p.list[1..] && q.mem == p.mem && q.log == p.log + [DidAlloc(p.list[0], generation)]
    && q.own == p.own[p.list[0] := ALLOCATED_BIT + generation] && q.threads == p.threads[t := Idle]
  }

  /** An allocation that starts over now: the head slot is taken, or there is none. */
  ghost predicate Allocated(p: Pool, q: Pool, t: nat)
    requires WellSized(p) && t < |p.threads|
  {
    if p.list == [] then q == Return(p, t, OutOfMemory) else TookHead(p, q, t)
  }

  /** At most `bound` steps of thread `t` alone complete its allocation. */
  ghost predicate CompletesWithin(p: Pool, t: nat, bound: nat)
    requires WellSized(p) && t < |p.threads|
  {
    exists k :: 1 <= k <= bound && Allocated(p, Solo(p, t, k), t)
  }

  lemma ClaimLoads(p: Pool, t: nat, slot: nat)
    requires WellSized(p) && t < |p.threads| && p.threads[t] == Claim(slot) && slot < p.n
    ensures Step(p, t, Go(false)) == Goto(p, t, ClaimCas(slot, p.own[slot]))
  {
  }

  lemma ClaimTakes(p: Pool, t: nat, slot: nat)
    requires WellSized(p) && t < |p.threads| && slot < p.n && p.threads[t] == ClaimCas(slot, p.own[slot])
    ensures Step(p, t, Go(false)) == Claimed(p, t, slot, p.own[slot])
  {
  }

  /** A slot in hand is claimed in two steps. */
  lemma ClaimCompletes(p: Pool, t: nat, slot: nat)
    requires WellSized(p) && t < |p.threads| && p.threads[t] == Claim(slot) && slot < p.n
    ensures Solo(p, t, 2) == Claimed(p, t, slot, p.own[slot])
  {
    var q := Goto(p, t, ClaimCas(slot, p.own[slot]));
    ClaimLoads(p, t, slot);
    ClaimTakes(q, t, slot);
    assert q.threads[t := Idle] == p.threads[t := Idle];
    assert Solo(p, t, 2) == Solo(q, t, 1) == Solo(Step(q, t, Go(false)), t, 0);
  }

  lemma CurrentCasCompletes(p: Pool, t: nat)
    requires PoolInv(p) && t < |p.threads| && p.threads[t].AllocCas? && WithinTagBound(p, t)
    requires p.head == p.threads[t].observed
    ensures p.list != [] && TookHead(p, Solo(p, t, 3), t)
  {
    CasSawNoUpdate(p, t);
    PopKeepsInv(p, t);
    var q := Popped(p, t, p.head, p.threads[t].next);
    assert Step(p, t, Go(false)) == q;
    ClaimCompletes(q, t, p.list[0]);
    assert q.threads[t := Idle] == p.threads[t := Idle];
    assert Solo(p, t, 3) == Solo(q, t, 2);
  }

  /** A step that only changes what thread `t` remembers comes before an allocation from there. */
  lemma StepThenAllocate(p: Pool, t: nat, pc: Pc, bound: nat)
    requires WellSized(p) && t < |p.threads| && Step(p, t, Go(false)) == Goto(p, t, pc)
    requires CompletesWithin(Goto(p, t, pc), t, bound)
    ensures CompletesWithin(p, t, bound + 1)
  {
    var k :| 1 <= k <= bound && Allocated(Goto(p, t, pc), Solo(Goto(p, t, pc), t, k), t);
    assert Solo(p, t, k + 1) == Solo(Goto(p, t, pc), t, k);
    AllocatedAlike(p, pc, Solo(p, t, k + 1), t);
  }

  lemma AllocatedAlike(p: Pool, pc: Pc, q: Pool, t: nat)
    requires WellSized(p) && t < |p.threads|
    ensures Allocated(p, q, t) <==> Allocated(Goto(p, t, pc), q, t)
  {
    assert Goto(p, t, pc).threads[t := Idle] == p.threads[t := Idle];
  }

  /** Fewer than 2^32 head updates have passed since the load this thread works from. */
  predicate Recent(p: Pool, t: nat) {
    t < |p.threads| && (p.threads[t].AllocNext? || p.threads[t].AllocCas?) ==> p.updates < p.threads[t].seen + TAGS
  }

  /** Where a popper that saw a slot goes next. */
  function Linked(p: Pool, t: nat): Pc
    requires WellSized(p) && t < |p.threads| && p.threads[t].AllocNext? && HeadIndex(p.threads[t].observed) < p.n
  {
    var pc := p.threads[t];
    AllocCas(pc.observed, pc.seen, p.next[HeadIndex(pc.observed)])
  }

  lemma NextStep(p: Pool, t: nat)
    requires PoolInv(p) && t < |p.threads| && p.threads[t].AllocNext? && !SawEmpty(p, t)
    ensures HeadIndex(p.threads[t].observed) < p.n && PoolInv(Goto(p, t, Linked(p, t)))
    ensures Step(p, t, Go(false)) == Goto(p, t, Linked(p, t))
  {
    assert ThreadInv(p, p.threads[t]);
    StepKeepsInv(p, t, Go(false));
  }

  lemma EmptyNextCompletes(p: Pool, t: nat)
    requires WellSized(p) && SawEmpty(p, t)
    ensures Solo(p, t, 1) == Return(p, t, OutOfMemory)
  {
    assert Solo(p, t, 1) == Solo(Step(p, t, Go(false)), t, 0);
  }

  lemma CurrentNextCompletes(p: Pool, t: nat)
    requires PoolInv(p) && t < |p.threads| && p.threads[t].AllocNext? && Recent(p, t)
    requires p.threads[t].observed == p.head
    ensures CompletesWithin(p, t, 4)
  {
    PackRoundTrip(Nth(p.list, 0), p.updates % TAGS);
    if p.list == [] {
      EmptyNextCompletes(p, t);
    } else {
      NextStep(p, t);
      CurrentCasCompletes(Goto(p, t, Linked(p, t)), t);
      StepThenAllocate(p, t, Linked(p, t), 3);
    }
  }

  lemma StaleCasRetries(p: Pool, t: nat)
    requires PoolInv(p) && t < |p.threads| && p.threads[t].AllocCas? && Recent(p, t)
    requires p.head != p.threads[t].observed
    ensures PoolInv(Step(p, t, Go(false))) && Step(p, t, Go(false)) == Goto(p, t, AllocNext(p.head, p.updates))
  {
    StepKeepsInv(p, t, Go(false));
  }

  lemma CasCompletes(p: Pool, t: nat)
    requires PoolInv(p) && t < |p.threads| && p.threads[t].AllocCas? && Recent(p, t)
    ensures CompletesWithin(p, t, 5)
  {
    if p.head == p.threads[t].observed {
      CurrentCasCompletes(p, t);
    } else {
      StaleCasRetries(p, t);
      CurrentNextCompletes(Goto(p, t, AllocNext(p.head, p.updates)), t);
      StepThenAllocate(p, t, AllocNext(p.head, p.updates), 4);
    }
  }

  lemma LinkedCompletes(p: Pool, t: nat)
    requires PoolInv(p) && t < |p.threads| && p.threads[t].AllocNext? && Recent(p, t) && !SawEmpty(p, t)
    ensures CompletesWithin(p, t, 6)
  {
    NextStep(p, t);
    CasCompletes(Goto(p, t, Linked(p, t)), t);
    StepThenAllocate(p, t, Linked(p, t), 5);
  }

  lemma LoadStep(p: Pool, t: nat)
    requires PoolInv(p) && t < |p.threads| && p.threads[t].AllocLoad?
    ensures Step(p, t, Go(false)) == Goto(p, t, AllocNext(p.head, p.updates))
    ensures PoolInv(Goto(p, t, AllocNext(p.head, p.updates)))
  {
    StepKeepsInv(p, t, Go(false));
  }

  lemma LoadCompletes(p: Pool, t: nat)
    requires PoolInv(p) && t < |p.threads| && p.threads[t].AllocLoad?
    ensures CompletesWithin(p, t, 5)
  {
    LoadStep(p, t);
    CurrentNextCompletes(Goto(p, t, AllocNext(p.head, p.updates)), t);
    StepThenAllocate(p, t, AllocNext(p.head, p.updates), 4);
  }

  /**
   From every point of every run within the tag limit, an allocation that is left alone finishes within six of
   its steps: it takes the slot that is then the head, and reports that there is none only if it has already
   seen an empty list or the list is empty now.
   */
  lemma AllocateCompletes(mem: seq<seq<bv8>>, threads: nat, turns: seq<Turn>, t: nat)
    requires 0 < |mem| <= FREE_LIST_EMPTY && WithinTags(Fresh(mem, threads), turns)
    requires var p := Run(Fresh(mem, threads), turns); Allocating(p, t) && Recent(p, t)
    ensures var p := Run(Fresh(mem, threads), turns);
            && WellSized(p)
            && if SawEmpty(p, t) then Solo(p, t, 1) == Return(p, t, OutOfMemory) else CompletesWithin(p, t, 6)
  {
    FreshInv(mem, threads);
    RunKeepsPool(Fresh(mem, threads), turns);
    var p := Run(Fresh(mem, threads), turns);
    if SawEmpty(p, t) {
      EmptyNextCompletes(p, t);
    } else if p.threads[t].AllocLoad? {
      LoadCompletes(p, t);
    } else if p.threads[t].AllocNext? {
      LinkedCompletes(p, t);
    } else {
      CasCompletes(p, t);
    }
  }

  /** A whole undisturbed allocation takes the head of the list, and fails exactly when there is none. */
  lemma AllocateTakesHead(p: Pool, t: nat)
    requires PoolInv(p) && t < |p.threads| && p.threads[t].Idle?
    ensures exists k :: 1 <= k <= 5 && Allocated(p, Solo(Step(p, t, BeginAlloc), t, k), t)
  {
    var q := Goto(p, t, AllocLoad);
    StepKeepsInv(p, t, BeginAlloc);
    LoadCompletes(q, t);
    var k :| 1 <= k <= 5 && Allocated(q, Solo(q, t, k), t);
    AllocatedAlike(p, AllocLoad, Solo(q, t, k), t);
  }

  /** What the push of a slot in hand leaves. */
  ghost predicate PutHead(p: Pool, q: Pool, t: nat, slot: nat)
    requires t < |p.threads|
  {
    && q.list == [slot] + p.list && q.own == p.own && q.log == p.log && q.mem == p.mem
    && q.threads == p.threads[t := Idle]
  }

  lemma LinkStep(p: Pool, t: nat, slot: nat, observed: u64)
    requires WellSized(p) && t < |p.threads| && slot < p.n && p.threads[t] == PushStore(slot, observed)
    ensures Step(p, t, Go(false))
            == Goto(p, t, PushCas(slot, observed)).(next := p.next[slot := HeadIndex(observed)])
  {
  }

  lemma PushStep(p: Pool, t: nat, slot: nat)
    requires WellSized(p) && t < |p.threads| && slot < p.n && p.threads[t] == PushCas(slot, p.head)
    ensures Step(p, t, Go(false)) == Pushed(p, t, slot, p.head)
  {
  }

  lemma CurrentPushCompletes(p: Pool, t: nat, slot: nat)
    requires WellSized(p) && t < |p.threads| && slot < p.n && p.threads[t] == PushStore(slot, p.head)
    ensures PutHead(p, Solo(p, t, 2), t, slot)
  {
    LinkStep(p, t, slot, p.head);
    var q := Goto(p, t, PushCas(slot, p.head)).(next := p.next[slot := HeadIndex(p.head)]);
    PushStep(q, t, slot);
    assert q.threads[t := Idle] == p.threads[t := Idle];
    assert Solo(p, t, 2) == Solo(q, t, 1) == Solo(Pushed(q, t, slot, p.head), t, 0);
  }

  lemma PushLoadCompletes(p: Pool, t: nat) returns (k: nat)
    requires PoolInv(p) && t < |p.threads|
    requires p.threads[t].PushLoad? || p.threads[t].PushCas?
    ensures 1 <= k <= 3 && PutHead(p, Solo(p, t, k), t, p.threads[t].slot)
  {
    var q := Step(p, t, Go(false));
    StepKeepsInv(p, t, Go(false));
    assert ThreadInv(p, p.threads[t]);
    if p.threads[t].PushCas? && p.threads[t].observed == p.head {
      k := 1;
      assert Solo(p, t, 1) == Solo(q, t, 0);
    } else {
      CurrentPushCompletes(q, t, p.threads[t].slot);
      k := 3;
      assert q.threads[t := Idle] == p.threads[t := Idle];
      assert Solo(p, t, k) == Solo(q, t, 2);
    }
  }

  lemma PushCompletes(p: Pool, t: nat) returns (k: nat)
    requires PoolInv(p) && t < |p.threads|
    requires p.threads[t].PushLoad? || p.threads[t].PushStore? || p.threads[t].PushCas?
    ensures 1 <= k <= 4 && PutHead(p, Solo(p, t, k), t, p.threads[t].slot)
  {
    if !p.threads[t].PushStore? {
      k := PushLoadCompletes(p, t);
    } else if p.threads[t].observed == p.head {
      assert InHand(p.threads[t]);
      CurrentPushCompletes(p, t, p.threads[t].slot);
      k := 2;
    } else {
      var q := Step(p, t, Go(false));
      LinkKeepsInv(p, t);
      assert ThreadInv(p, p.threads[t]);
      var rest := PushLoadCompletes(q, t);
      k := 1 + rest;
      assert q.threads[t := Idle] == p.threads[t := Idle];
      assert Solo(p, t, k) == Solo(q, t, rest);
    }
  }

  /** What the rest of a free leaves: its slot wiped, if it still had to be, and at the head of the list. */
  ghost predicate PutBack(p: Pool, q: Pool, t: nat)
    requires WellSized(p) && t < |p.threads| && InHand(p.threads[t]) && p.threads[t].slot < p.n
  {
    var slot := p.threads[t].slot;
    var mem := if p.threads[t].Wipe? then p.mem[slot := Zeroed(|p.mem[slot]|)] else p.mem;
    PutHead(p.(mem := mem), q, t, slot)
  }

  lemma PutBackAt(p: Pool, t: nat) returns (k: nat)
    requires PoolInv(p) && t < |p.threads| && InHand(p.threads[t]) && !p.threads[t].Claim? && !p.threads[t].ClaimCas?
    ensures p.threads[t].slot < p.n && 1 <= k <= 4 && PutBack(p, Solo(p, t, k), t)
  {
    if p.threads[t].Wipe? {
      var q := Step(p, t, Go(false));
      StepKeepsInv(p, t, Go(false));
      assert q.threads[t := Idle] == p.threads[t := Idle];
      var rest := PushLoadCompletes(q, t);
      k := 1 + rest;
      assert Solo(p, t, k) == Solo(q, t, rest);
    } else {
      k := PushCompletes(p, t);
    }
  }

  /**
   From every point of every run within the tag limit, a free that has taken its token back and is left alone
   finishes within four of its steps, with its slot wiped and at the head of the list.
   */
  lemma FreeCompletes(mem: seq<seq<bv8>>, threads: nat, turns: seq<Turn>, t: nat) returns (k: nat)
    requires 0 < |mem| <= FREE_LIST_EMPTY && WithinTags(Fresh(mem, threads), turns)
    requires var p := Run(Fresh(mem, threads), turns);
             t < |p.threads| && InHand(p.threads[t]) && !p.threads[t].Claim? && !p.threads[t].ClaimCas?
    ensures var p := Run(Fresh(mem, threads), turns);
            1 <= k <= 4 && WellSized(p) && p.threads[t].slot < p.n && PutBack(p, Solo(p, t, k), t)
  {
    FreshInv(mem, threads);
    RunKeepsPool(Fresh(mem, threads), turns);
    k := PutBackAt(Run(Fresh(mem, threads), turns), t);
  }

  /** What a whole free of a live token leaves. */
  ghost predicate Freed(p: Pool, q: Pool, t: nat, slot: nat, generation: u64)
    requires WellSized(p) && t < |p.threads| && slot < p.n
  {
    && q.list == [slot] + p.list && q.mem == p.mem[slot := Zeroed(|p.mem[slot]|)]
    && q.own == p.own[slot := generation] && q.log == p.log + [DidFree(slot, generation)]
    && q.threads == p.threads[t := Idle]
  }

  /** An undisturbed free of a live token wipes the slot and puts it at the head of the list within five steps. */
  lemma FreePutsHead(p: Pool, t: nat)
    requires FullInv(p) && t < |p.threads| && p.threads[t].FreeCas?
    requires Live(p, p.threads[t].slot, p.threads[t].generation)
    ensures p.threads[t].slot < p.n
    ensures exists k :: 1 <= k <= 5 && Freed(p, Solo(p, t, k), t, p.threads[t].slot, p.threads[t].generation)
  {
    FreeDecidesAt(p, t);
    assert ThreadInv(p, p.threads[t]);
    var (slot, generation) := (p.threads[t].slot, p.threads[t].generation);
    StepKeepsInv(p, t, Go(false));
    var q := Released(p, t, slot, generation);
    var k := PutBackAt(q, t);
    assert q.threads[t := Idle] == p.threads[t := Idle];
    assert Solo(p, t, k + 1) == Solo(q, t, k);
    assert Freed(p, Solo(p, t, k + 1), t, slot, generation);
  }

  // ---- The memory of an owned slot ----

  /** At every point of every run the bytes of an allocated slot change only by a write through its live token. */
  lemma OwnedMemoryIsTheOwners(mem: seq<seq<bv8>>, threads: nat, turns: seq<Turn>, t: nat, a: Action, slot: nat)
    requires 0 < |mem| <= FREE_LIST_EMPTY && WithinTags(Fresh(mem, threads), turns) && slot < |mem|
    requires var p := Run(Fresh(mem, threads), turns); t < |p.threads| && slot < |p.own| && IsAllocated(p.own[slot])
    ensures var p := Run(Fresh(mem, threads), turns);
            var q := Step(p, t, a);
            && slot < |p.mem| == |q.mem|
            && q.mem[slot] == if p.threads[t].Idle? && a.Write? && a.slot == slot && |a.data| == |p.mem[slot]|
                                 && p.own[slot] == ALLOCATED_BIT + a.generation then a.data else p.mem[slot]
  {
    FreshInv(mem, threads);
    RunKeepsPool(Fresh(mem, threads), turns);
    OwnedMemoryAt(Run(Fresh(mem, threads), turns), t, a, slot);
  }

  lemma OwnedMemoryAt(p: Pool, t: nat, a: Action, slot: nat)
    requires PoolInv(p) && t < |p.threads| && slot < p.n && IsAllocated(p.own[slot])
    ensures var q := Step(p, t, a);
            && |p.mem| == |q.mem| == p.n
            && q.mem[slot] == if p.threads[t].Idle? && a.Write? && a.slot == slot && |a.data| == |p.mem[slot]|
                                 && p.own[slot] == ALLOCATED_BIT + a.generation then a.data else p.mem[slot]
  {
    assert InHand(p.threads[t]) ==> p.threads[t].slot < p.n && p.place[p.threads[t].slot] == Held(t);
  }
}
