/**
 Ownership tokens and zeroization of the DMA pool, over whole runs.
 */
module DmaTokens {
  import opened Words
  import opened DmaPool

  // ---- Memory ----

  /** The slot has been wiped since its last owner: it is listed, popped, or being pushed. */
  predicate Clean(p: Pool, s: nat)
    requires s < |p.place|
  {
    match p.place[s]
    case Listed => true
    case Held(t) => t < |p.threads| && !p.threads[t].Wipe?
    case Owned => false
  }

  ghost predicate MemInv(p: Pool)
    requires WellSized(p)
  {
    forall s :: 0 <= s < p.n && p.allocs[s] > 0 && Clean(p, s) ==> p.mem[s] == Zeroed(|p.mem[s]|)
  }

  lemma PopKeepsMem(p: Pool, t: nat)
    requires PoolInv(p) && MemInv(p) && t < |p.threads| && p.threads[t].AllocCas?
    requires p.list != [] && HeadIndex(p.threads[t].observed) == p.list[0] < p.n
    ensures MemInv(Popped(p, t, p.threads[t].observed, p.threads[t].next))
  {
  }

  lemma PushKeepsMem(p: Pool, t: nat)
    requires PoolInv(p) && MemInv(p) && t < |p.threads| && p.threads[t].PushCas? && p.threads[t].slot < p.n
    ensures MemInv(Pushed(p, t, p.threads[t].slot, p.threads[t].observed))
  {
  }

  lemma OwnershipKeepsMem(p: Pool, t: nat)
    requires PoolInv(p) && MemInv(p) && t < |p.threads| && (p.threads[t].ClaimCas? || p.threads[t].FreeCas?)
    requires p.threads[t].slot < p.n
    ensures p.threads[t].ClaimCas? ==> MemInv(Claimed(p, t, p.threads[t].slot, p.threads[t].state))
    ensures p.threads[t].FreeCas? ==> MemInv(Released(p, t, p.threads[t].slot, p.threads[t].generation))
  {
  }

  /** A step that changes only its own thread, and memory at most at a slot it wipes or its caller owns. */
  lemma LocalKeepsMem(p: Pool, t: nat, pc: Pc, mem: seq<seq<bv8>>, log: seq<Out>, s: nat)
    requires PoolInv(p) && MemInv(p) && t < |p.threads| && |mem| == p.n && s < p.n
    requires forall k :: 0 <= k < p.n && k != s ==> mem[k] == p.mem[k]
    requires p.place[s].Owned? || mem[s] == p.mem[s] || mem[s] == Zeroed(|mem[s]|)
    requires p.threads[t].Wipe? && !pc.Wipe? ==> p.threads[t].slot == s && mem[s] == Zeroed(|mem[s]|)
    ensures MemInv(p.(threads := p.threads[t := pc], mem := mem, log := log))
  {
  }

  lemma LocalStepKeepsMem(p: Pool, t: nat, a: Action)
    requires PoolInv(p) && MemInv(p) && t < |p.threads| && IsLocal(p, t, a)
    ensures MemInv(Step(p, t, a))
  {
    var pc, q := p.threads[t], Step(p, t, a);
    LocalStep(p, t, a);
    assert InHand(pc) ==> pc.slot < p.n;
    var s := if pc.Wipe? then pc.slot else if a.Write? && a.slot < p.n then a.slot else 0;
    LocalMemory(p, t, a, s);
    LocalKeepsMem(p, t, q.threads[t], q.mem, q.log, s);
  }

  /** Local steps write memory only where a wipe or an owner may. */
  lemma LocalMemory(p: Pool, t: nat, a: Action, s: nat)
    requires PoolInv(p) && t < |p.threads| && IsLocal(p, t, a) && s < p.n
    requires s == if p.threads[t].Wipe? then p.threads[t].slot else if a.Write? && a.slot < p.n then a.slot else 0
    ensures var q := Step(p, t, a);
            && |q.mem| == p.n && |q.threads| == |p.threads|
            && (forall k :: 0 <= k < p.n && k != s ==> q.mem[k] == p.mem[k])
            && (p.place[s].Owned? || q.mem[s] == p.mem[s] || q.mem[s] == Zeroed(|q.mem[s]|))
            && (p.threads[t].Wipe? && !q.threads[t].Wipe? ==> q.mem[s] == Zeroed(|q.mem[s]|))
  {
  }

  lemma LinkStepKeepsMem(p: Pool, t: nat)
    requires PoolInv(p) && MemInv(p) && t < |p.threads| && p.threads[t].PushStore?
    ensures WellSized(Step(p, t, Go(false))) && MemInv(Step(p, t, Go(false)))
  {
  }

  lemma StepKeepsMem(p: Pool, t: nat, a: Action)
    requires PoolInv(p) && WithinTagBound(p, t) && MemInv(p)
    ensures WellSized(Step(p, t, a)) && MemInv(Step(p, t, a))
  {
    StepKeepsInv(p, t, a);
    if t < |p.threads| {
      var pc := p.threads[t];
      assert ThreadInv(p, pc);
      if IsLocal(p, t, a) {
        LocalStepKeepsMem(p, t, a);
      } else if pc.AllocCas? {
        CasSawNoUpdate(p, t);
        PopKeepsMem(p, t);
      } else if pc.PushCas? {
        PushKeepsMem(p, t);
      } else if pc.PushStore? {
        LinkStepKeepsMem(p, t);
      } else {
        OwnershipKeepsMem(p, t);
      }
    }
  }

  // ---- Tokens ----

  /** The slot being claimed has been allocated fewer than 2^63 times. */
  predicate WithinGenerationBound(p: Pool, t: nat) {
    t < |p.threads| && p.threads[t].ClaimCas? && p.threads[t].slot < |p.allocs| ==>
      p.allocs[p.threads[t].slot] < ALLOCATED_BIT
  }

  predicate IsAllocated(word: u64) { word >= ALLOCATED_BIT }

  /** The generation in a slot's word counts its allocations, and wraps with the last of them. */
  ghost predicate GenerationInv(p: Pool)
    requires WellSized(p)
  {
    forall s :: 0 <= s < p.n ==>
      && p.allocs[s] <= ALLOCATED_BIT && p.own[s] % ALLOCATED_BIT == p.allocs[s] % ALLOCATED_BIT
      && (IsAllocated(p.own[s]) ==> p.allocs[s] > 0)
  }

  /** The generations `allocs` allocations of one slot have issued: 1, 2, and so on, and 0 with the 2^63-th. */
  predicate Issued(allocs: nat, g: nat) {
    g < ALLOCATED_BIT && (1 <= g <= allocs || (g == 0 && allocs == ALLOCATED_BIT))
  }

  /** The log holds exactly the issued tokens, and all but a live last one have been freed. */
  ghost predicate BooksInv(p: Pool)
    requires WellSized(p)
  {
    && (forall s: nat, g: nat :: DidAlloc(s, g) in p.log <==> s < p.n && Issued(p.allocs[s], g))
    && (forall s: nat, g: nat :: DidFree(s, g) in p.log <==>
          s < p.n && Issued(p.allocs[s], g) && (g == p.allocs[s] % ALLOCATED_BIT ==> !IsAllocated(p.own[s])))
  }

  /** No token is issued twice and none is freed twice. */
  ghost predicate OnceInv(log: seq<Out>) {
    forall i, j :: 0 <= i < j < |log| && (log[i].DidAlloc? || log[i].DidFree?) ==> log[i] != log[j]
  }

  ghost predicate TokenInv(p: Pool)
    requires WellSized(p)
  {
    GenerationInv(p) && BooksInv(p) && OnceInv(p.log)
  }

  lemma LogAppends(log: seq<Out>, out: Out)
    requires OnceInv(log) && (out.DidAlloc? || out.DidFree? ==> out !in log)
    ensures OnceInv(log + [out])
  {
  }

  /** The claim of a slot in hand finds it free, and moves its generation on by one. */
  lemma ClaimIsFresh(p: Pool, t: nat)
    requires PoolInv(p) && GenerationInv(p) && t < |p.threads| && p.threads[t].ClaimCas? && WithinGenerationBound(p, t)
    ensures var pc := p.threads[t];
            pc.slot < p.n && p.own[pc.slot] == pc.state == p.allocs[pc.slot]
            && NextGeneration(pc.state) == (p.allocs[pc.slot] + 1) % ALLOCATED_BIT && p.allocs[pc.slot] < ALLOCATED_BIT
  {
  }

  lemma ClaimKeepsTokens(p: Pool, t: nat)
    requires PoolInv(p) && TokenInv(p) && t < |p.threads| && p.threads[t].ClaimCas? && WithinGenerationBound(p, t)
    ensures p.threads[t].slot < p.n && TokenInv(Claimed(p, t, p.threads[t].slot, p.threads[t].state))
  {
    ClaimIsFresh(p, t);
    var (slot, state) := (p.threads[t].slot, p.threads[t].state);
    LogAppends(p.log, DidAlloc(slot, NextGeneration(state)));
    ClaimKeepsBooks(p, t, slot, state);
  }

  lemma ClaimKeepsBooks(p: Pool, t: nat, slot: nat, state: u64)
    requires WellSized(p) && BooksInv(p) && t < |p.threads| && slot < p.n && p.own[slot] == state == p.allocs[slot]
    requires NextGeneration(state) == (state + 1) % ALLOCATED_BIT && state < ALLOCATED_BIT
    ensures BooksInv(Claimed(p, t, slot, state))
  {
    var q := Claimed(p, t, slot, state);
    forall s: nat, g: nat
      ensures DidAlloc(s, g) in q.log <==> DidAlloc(s, g) in p.log || (s == slot && g == NextGeneration(state))
      ensures DidFree(s, g) in q.log <==> DidFree(s, g) in p.log
    {
    }
  }

  lemma ReleaseKeepsTokens(p: Pool, t: nat)
    requires PoolInv(p) && TokenInv(p) && t < |p.threads| && p.threads[t].FreeCas? && p.threads[t].slot < p.n
    requires p.threads[t].generation < ALLOCATED_BIT
             && p.own[p.threads[t].slot] == ALLOCATED_BIT + p.threads[t].generation
    ensures TokenInv(Released(p, t, p.threads[t].slot, p.threads[t].generation))
  {
    var (slot, generation) := (p.threads[t].slot, p.threads[t].generation);
    WordGeneration(generation);
    assert p.allocs[slot] % ALLOCATED_BIT == generation && DidFree(slot, generation) !in p.log;
    assert Issued(p.allocs[slot], generation);
    LogAppends(p.log, DidFree(slot, generation));
    ReleaseKeepsGenerations(p, t, slot, generation);
    ReleaseKeepsBooks(p, t, slot, generation);
  }

  lemma WordGeneration(generation: u64)
    requires generation < ALLOCATED_BIT
    ensures (ALLOCATED_BIT + generation) % ALLOCATED_BIT == generation == generation % ALLOCATED_BIT
  {
  }

  lemma ReleaseKeepsGenerations(p: Pool, t: nat, slot: nat, generation: u64)
    requires WellSized(p) && GenerationInv(p) && t < |p.threads| && slot < p.n && generation < ALLOCATED_BIT
    requires p.allocs[slot] % ALLOCATED_BIT == generation
    ensures GenerationInv(Released(p, t, slot, generation))
  {
    WordGeneration(generation);
  }

  lemma ReleaseKeepsBooks(p: Pool, t: nat, slot: nat, generation: u64)
    requires WellSized(p) && BooksInv(p) && t < |p.threads| && slot < p.n && generation < ALLOCATED_BIT
    requires p.own[slot] == ALLOCATED_BIT + generation && p.allocs[slot] % ALLOCATED_BIT == generation
    requires DidAlloc(slot, generation) in p.log
    ensures BooksInv(Released(p, t, slot, generation))
  {
    var q := Released(p, t, slot, generation);
    forall s: nat, g: nat
      ensures DidAlloc(s, g) in q.log <==> DidAlloc(s, g) in p.log
      ensures DidFree(s, g) in q.log <==> DidFree(s, g) in p.log || (s == slot && g == generation)
    {
    }
  }

  predicate IsError(out: Out) { out.OutOfMemory? || out.OutOfBounds? || out.DoubleFree? }

  /** Reporting anything but a token leaves the token books as they are. */
  lemma ReportKeepsTokens(p: Pool, q: Pool)
    requires WellSized(p) && TokenInv(p) && OnlyReports(p, q)
    ensures TokenInv(q)
  {
  }

  /** `q` has the words and counts of `p`, and reports at most one error more. */
  ghost predicate OnlyReports(p: Pool, q: Pool) {
    && WellSized(q) && q.n == p.n && q.own == p.own && q.allocs == p.allocs
    && (q.log == p.log || (q.log != [] && q.log == p.log + [q.log[|q.log| - 1]] && IsError(q.log[|q.log| - 1])))
  }

  /** Only a claim and a successful release touch a word or a token. */
  lemma OtherStepsReport(p: Pool, t: nat, a: Action)
    requires WellSized(p) && t < |p.threads| && !(p.threads[t].ClaimCas? && a.Go?)
    requires p.threads[t].FreeCas? && a.Go? && p.threads[t].slot < p.n ==>
               p.own[p.threads[t].slot] != ALLOCATED_BIT + p.threads[t].generation
    ensures OnlyReports(p, Step(p, t, a))
  {
  }

  lemma StepKeepsTokens(p: Pool, t: nat, a: Action)
    requires PoolInv(p) && TokenInv(p) && WithinGenerationBound(p, t)
    ensures WellSized(Step(p, t, a)) && TokenInv(Step(p, t, a))
  {
    if t < |p.threads| {
      var pc := p.threads[t];
      assert ThreadInv(p, pc);
      if pc.ClaimCas? && a.Go? {
        ClaimKeepsTokens(p, t);
      } else if pc.FreeCas? && a.Go? && p.own[pc.slot] == ALLOCATED_BIT + pc.generation {
        ReleaseKeepsTokens(p, t);
      } else {
        OtherStepsReport(p, t, a);
        ReportKeepsTokens(p, Step(p, t, a));
      }
    }
  }

  // ---- Runs ----

  datatype Turn = Turn(thread: nat, action: Action)

  function Run(p: Pool, turns: seq<Turn>): Pool
    decreases |turns|
  {
    if turns == [] then p else Run(Step(p, turns[0].thread, turns[0].action), turns[1..])
  }

  /** The documented lifetime limits hold at every step of the run. */
  predicate WithinBounds(p: Pool, turns: seq<Turn>)
    decreases |turns|
  {
    turns != [] ==>
      && WithinTagBound(p, turns[0].thread) && WithinGenerationBound(p, turns[0].thread)
      && WithinBounds(Step(p, turns[0].thread, turns[0].action), turns[1..])
  }

  /** The tag limit alone holds at every step of the run. */
  predicate WithinTags(p: Pool, turns: seq<Turn>)
    decreases |turns|
  {
    turns != [] ==>
      WithinTagBound(p, turns[0].thread) && WithinTags(Step(p, turns[0].thread, turns[0].action), turns[1..])
  }

  lemma {:induction false} RunConcat(p: Pool, a: seq<Turn>, b: seq<Turn>)
    ensures Run(p, a + b) == Run(Run(p, a), b)
    ensures WithinBounds(p, a + b) <==> WithinBounds(p, a) && WithinBounds(Run(p, a), b)
    ensures WithinTags(p, a + b) <==> WithinTags(p, a) && WithinTags(Run(p, a), b)
    decreases |a|
  {
    if a == [] {
      assert a + b == b;
    } else {
      assert (a + b)[1..] == a[1..] + b;
      RunConcat(Step(p, a[0].thread, a[0].action), a[1..], b);
    }
  }

  lemma {:induction false} RunKeepsPool(p: Pool, turns: seq<Turn>)
    requires PoolInv(p) && MemInv(p) && WithinTags(p, turns)
    ensures PoolInv(Run(p, turns)) && MemInv(Run(p, turns))
    decreases |turns|
  {
    if turns != [] {
      StepKeepsInv(p, turns[0].thread, turns[0].action);
      StepKeepsMem(p, turns[0].thread, turns[0].action);
      RunKeepsPool(Step(p, turns[0].thread, turns[0].action), turns[1..]);
    }
  }

  ghost predicate FullInv(p: Pool) { PoolInv(p) && MemInv(p) && TokenInv(p) }

  lemma {:induction false} RunKeepsInv(p: Pool, turns: seq<Turn>)
    requires FullInv(p) && WithinBounds(p, turns)
    ensures FullInv(Run(p, turns))
    decreases |turns|
  {
    if turns != [] {
      StepKeepsInv(p, turns[0].thread, turns[0].action);
      StepKeepsMem(p, turns[0].thread, turns[0].action);
      StepKeepsTokens(p, turns[0].thread, turns[0].action);
      RunKeepsInv(Step(p, turns[0].thread, turns[0].action), turns[1..]);
    }
  }

  /** The pool as a sequential `init` leaves it, over memory of any content. */
  function Fresh(mem: seq<seq<bv8>>, threads: nat): Pool
    requires 0 < |mem| <= FREE_LIST_EMPTY
  {
    var n := |mem|;
    Pool(n, PackHead(0, 0), seq(n, i => if 0 <= i < n - 1 then i + 1 else FREE_LIST_EMPTY), seq(n, _ => 0), mem,
         seq(threads, _ => Idle), seq(n, i => if i < 0 then 0 else i), seq(n, _ => Listed), 0, seq(n, _ => 0), [])
  }

  lemma FreshList(mem: seq<seq<bv8>>, threads: nat)
    requires 0 < |mem| <= FREE_LIST_EMPTY
    ensures WellSized(Fresh(mem, threads)) && ListInv(Fresh(mem, threads))
  {
  }

  lemma FreshPlaces(mem: seq<seq<bv8>>, threads: nat)
    requires 0 < |mem| <= FREE_LIST_EMPTY
    ensures PlaceInv(Fresh(mem, threads)) && ThreadsInv(Fresh(mem, threads))
  {
    var p := Fresh(mem, threads);
    forall s | 0 <= s < p.n ensures s in p.list {
      assert p.list[s] == s;
    }
  }

  lemma FreshTokens(mem: seq<seq<bv8>>, threads: nat)
    requires 0 < |mem| <= FREE_LIST_EMPTY
    ensures MemInv(Fresh(mem, threads)) && TokenInv(Fresh(mem, threads))
  {
  }

  lemma FreshInv(mem: seq<seq<bv8>>, threads: nat)
    requires 0 < |mem| <= FREE_LIST_EMPTY
    ensures FullInv(Fresh(mem, threads))
  {
    FreshList(mem, threads);
    FreshPlaces(mem, threads);
    FreshTokens(mem, threads);
  }

  /** The initialization loop builds exactly the links of a fresh pool. */
  method BuildFreeList(next: array<u32>, own: array<u64>)
    requires 0 < next.Length == own.Length <= FREE_LIST_EMPTY && next as object != own
    modifies next, own
    ensures forall mem, threads :: |mem| == next.Length ==>
              Fresh(mem, threads).next == next[..] && Fresh(mem, threads).own == own[..]
  {
    var n := next.Length;
    for index := 0 to n
      invariant forall k :: 0 <= k < index ==> next[k] == (if k < n - 1 then k + 1 else FREE_LIST_EMPTY) && own[k] == 0
    {
      next[index] := if index + 1 < n then index + 1 else FREE_LIST_EMPTY;
      own[index] := 0;
    }
  }

  // ---- What every run keeps ----

  ghost predicate HeldBySome(p: Pool, s: nat) {
    exists t :: 0 <= t < |p.threads| && InHand(p.threads[t]) && p.threads[t].slot == s
  }

  /** Listed, in hand and owned slots partition the pool, and no two threads hold one slot. */
  lemma SlotsArePartitioned(mem: seq<seq<bv8>>, threads: nat, turns: seq<Turn>)
    requires 0 < |mem| <= FREE_LIST_EMPTY && WithinTags(Fresh(mem, threads), turns)
    ensures var p := Run(Fresh(mem, threads), turns);
            && WellSized(p) && Chained(p.next, p.list) && HeadIndex(p.head) == Nth(p.list, 0)
            && (forall s :: 0 <= s < p.n ==> s in p.list || HeldBySome(p, s) || IsAllocated(p.own[s]))
            && (forall s :: 0 <= s < p.n ==> !(s in p.list && IsAllocated(p.own[s])))
            && (forall s :: 0 <= s < p.n && HeldBySome(p, s) ==> s !in p.list && !IsAllocated(p.own[s]))
            && (forall t, u :: 0 <= t < u < |p.threads| && InHand(p.threads[t]) && InHand(p.threads[u]) ==>
                  p.threads[t].slot != p.threads[u].slot)
  {
    FreshInv(mem, threads);
    RunKeepsPool(Fresh(mem, threads), turns);
    var p := Run(Fresh(mem, threads), turns);
    PackRoundTrip(Nth(p.list, 0), p.updates % TAGS);
  }

  lemma ClaimSucceedsAt(p: Pool, t: nat)
    requires PoolInv(p) && MemInv(p) && t < |p.threads| && p.threads[t].ClaimCas?
    ensures var (slot, state) := (p.threads[t].slot, p.threads[t].state);
            && slot < p.n && Step(p, t, Go(false)) == Claimed(p, t, slot, state)
            && (p.allocs[slot] > 0 ==> p.mem[slot] == Zeroed(|p.mem[slot]|))
  {
    assert ThreadInv(p, p.threads[t]) && InHand(p.threads[t]);
    assert Clean(p, p.threads[t].slot);
  }

  /**
   The claim of a popped slot never fails, and a slot handed out again is all zero, on every run within the tag
   limit.
   */
  lemma ClaimsNeverFail(mem: seq<seq<bv8>>, threads: nat, turns: seq<Turn>, t: nat)
    requires 0 < |mem| <= FREE_LIST_EMPTY && WithinTags(Fresh(mem, threads), turns)
    requires var p := Run(Fresh(mem, threads), turns); t < |p.threads| && p.threads[t].ClaimCas?
    ensures var p := Run(Fresh(mem, threads), turns);
            var (slot, q) := (p.threads[t].slot, Step(p, t, Go(false)));
            && slot < p.n && |p.mem| == |q.mem| == |p.allocs| == p.n
            && q.log == p.log + [DidAlloc(slot, NextGeneration(p.threads[t].state))]
            && (p.allocs[slot] > 0 ==> q.mem[slot] == Zeroed(|p.mem[slot]|))
  {
    FreshInv(mem, threads);
    RunKeepsPool(Fresh(mem, threads), turns);
    ClaimSucceedsAt(Run(Fresh(mem, threads), turns), t);
  }

  /** On every run within both limits a token is issued once, and freed at most once and only if issued. */
  lemma TokensAreUsedOnce(mem: seq<seq<bv8>>, threads: nat, turns: seq<Turn>)
    requires 0 < |mem| <= FREE_LIST_EMPTY && WithinBounds(Fresh(mem, threads), turns)
    ensures var log := Run(Fresh(mem, threads), turns).log;
            && (forall i, j :: 0 <= i < j < |log| && (log[i].DidAlloc? || log[i].DidFree?) ==> log[i] != log[j])
            && (forall s: nat, g: nat :: DidFree(s, g) in log ==> DidAlloc(s, g) in log)
  {
    FreshInv(mem, threads);
    RunKeepsInv(Fresh(mem, threads), turns);
  }

  /** The token was issued and has not been freed. */
  predicate Live(p: Pool, slot: nat, generation: nat) {
    DidAlloc(slot, generation) in p.log && DidFree(slot, generation) !in p.log
  }

  /** A live token is released; any other changes no memory, word or list. */
  ghost predicate FreeDecides(p: Pool, t: nat)
    requires t < |p.threads| && p.threads[t].FreeCas? && p.threads[t].slot < |p.own| == |p.place|
  {
    var (pc, q) := (p.threads[t], Step(p, t, Go(false)));
    if Live(p, pc.slot, pc.generation) then q == Released(p, t, pc.slot, pc.generation)
    else q == p.(threads := p.threads[t := Idle], log := p.log + [DoubleFree])
  }

  lemma FreeDecidesAt(p: Pool, t: nat)
    requires FullInv(p) && t < |p.threads| && p.threads[t].FreeCas?
    ensures p.threads[t].slot < |p.own| == |p.place| && FreeDecides(p, t)
  {
    assert ThreadInv(p, p.threads[t]);
  }

  /** At every point of every run within both limits a free succeeds exactly on a live token. */
  lemma FreeSucceedsIffLive(mem: seq<seq<bv8>>, threads: nat, turns: seq<Turn>, t: nat)
    requires 0 < |mem| <= FREE_LIST_EMPTY && WithinBounds(Fresh(mem, threads), turns)
    requires var p := Run(Fresh(mem, threads), turns); t < |p.threads| && p.threads[t].FreeCas?
    ensures var p := Run(Fresh(mem, threads), turns);
            p.threads[t].slot < |p.own| == |p.place| && FreeDecides(p, t)
  {
    FreshInv(mem, threads);
    RunKeepsInv(Fresh(mem, threads), turns);
    FreeDecidesAt(Run(Fresh(mem, threads), turns), t);
  }
}
