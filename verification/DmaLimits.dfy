/**
 Both lifetime limits of the pool are exact. Each theorem gives a run from a fresh pool of three slots
 that is inside both limits up to its last step, and whose last step, the first outside, does the harm:
 a compare-exchange exactly 2^32 head updates after its load corrupts the list, and the allocation of a
 slot after 2^63 others issues a token again.

 Thread 0 loads the head at most once; thread 1 makes whole calls, one after another.
 */
module DmaLimits {
  import opened Words
  import opened DmaPool
  import opened DmaTokens

  // ---- Runs as pieces ----

  /** `turns` lead from `p` to `q` inside the lifetime limits. */
  ghost predicate Reach(p: Pool, turns: seq<Turn>, q: Pool) { WithinBounds(p, turns) && Run(p, turns) == q }

  lemma ReachJoins(p: Pool, a: seq<Turn>, q: Pool, b: seq<Turn>, r: Pool)
    requires Reach(p, a, q) && Reach(q, b, r)
    ensures Reach(p, a + b, r)
  {
    RunConcat(p, a, b);
  }

  lemma ReachOne(p: Pool, t: nat, a: Action)
    requires WithinTagBound(p, t) && WithinGenerationBound(p, t)
    ensures Reach(p, [Turn(t, a)], Step(p, t, a))
  {
    assert [Turn(t, a)][1..] == [];
  }

  const ON: Turn := Turn(1, Go(false))

  /** The turns of a call of thread 1 that nothing disturbs: it begins, then takes five steps. */
  function Call(a: Action): seq<Turn> { [Turn(1, a)] + [ON] + [ON] + [ON] + [ON] + [ON] }

  /** Thread 0 waits; thread 1 is at `pc`. */
  function With(p: Pool, waiting: Pc, pc: Pc): Pool { p.(threads := [waiting, pc]) }

  lemma PrefixReaches(p0: Pool, a: Action, p1: Pool, p2: Pool, p3: Pool, p4: Pool, p5: Pool)
    requires InBounds(p0) && InBounds(p1) && InBounds(p2) && InBounds(p3) && InBounds(p4)
    requires Step(p0, 1, a) == p1 && Step(p1, 1, Go(false)) == p2 && Step(p2, 1, Go(false)) == p3
    requires Step(p3, 1, Go(false)) == p4 && Step(p4, 1, Go(false)) == p5
    ensures Reach(p0, Call(a)[..5], p5)
  {
    ReachOne(p0, 1, a);
    ReachOne(p1, 1, Go(false));
    ReachJoins(p0, [Turn(1, a)], p1, [ON], p2);
    ReachOne(p2, 1, Go(false));
    ReachJoins(p0, [Turn(1, a)] + [ON], p2, [ON], p3);
    ReachOne(p3, 1, Go(false));
    ReachJoins(p0, [Turn(1, a)] + [ON] + [ON], p3, [ON], p4);
    ReachOne(p4, 1, Go(false));
    ReachJoins(p0, [Turn(1, a)] + [ON] + [ON] + [ON], p4, [ON], p5);
    assert Call(a)[..5] == [Turn(1, a)] + [ON] + [ON] + [ON] + [ON];
  }

  lemma CallReaches(p0: Pool, a: Action, p1: Pool, p2: Pool, p3: Pool, p4: Pool, p5: Pool, p6: Pool)
    requires InBounds(p0) && InBounds(p1) && InBounds(p2) && InBounds(p3) && InBounds(p4) && InBounds(p5)
    requires Step(p0, 1, a) == p1 && Step(p1, 1, Go(false)) == p2 && Step(p2, 1, Go(false)) == p3
    requires Step(p3, 1, Go(false)) == p4 && Step(p4, 1, Go(false)) == p5 && Step(p5, 1, Go(false)) == p6
    ensures Reach(p0, Call(a), p6)
  {
    PrefixReaches(p0, a, p1, p2, p3, p4, p5);
    ReachOne(p5, 1, Go(false));
    ReachJoins(p0, Call(a)[..5], p5, [ON], p6);
    assert Call(a)[..5] + [ON] == Call(a);
  }

  predicate InBounds(p: Pool) { WithinTagBound(p, 1) && WithinGenerationBound(p, 1) }

  // ---- The steps of a call ----

  lemma BeginStep(p: Pool, w: Pc, a: Action)
    requires WellSized(p) && p.threads == [w, Idle]
    requires a.BeginAlloc? || (a.BeginFree? && a.slot < p.n && a.generation < ALLOCATED_BIT)
    ensures Step(p, 1, a) == With(p, w, if a.BeginAlloc? then AllocLoad else FreeCas(a.slot, a.generation))
  {
    assert p.threads[1 := Step(p, 1, a).threads[1]] == [w, Step(p, 1, a).threads[1]];
  }

  lemma LoadStep(p: Pool, w: Pc)
    requires WellSized(p)
    ensures Step(With(p, w, AllocLoad), 1, Go(false)) == With(p, w, AllocNext(p.head, p.updates))
  {
    assert [w, AllocLoad][1 := AllocNext(p.head, p.updates)] == [w, AllocNext(p.head, p.updates)];
  }

  lemma NextStep(p: Pool, w: Pc)
    requires WellSized(p) && HeadIndex(p.head) < p.n
    ensures Step(With(p, w, AllocNext(p.head, p.updates)), 1, Go(false))
         == With(p, w, AllocCas(p.head, p.updates, p.next[HeadIndex(p.head)]))
  {
    var pc := AllocCas(p.head, p.updates, p.next[HeadIndex(p.head)]);
    assert [w, AllocNext(p.head, p.updates)][1 := pc] == [w, pc];
  }

  function AfterPop(p: Pool, w: Pc, next: u32): Pool
    requires HeadIndex(p.head) < |p.place|
  {
    With(Popped(With(p, w, Idle), 1, p.head, next), w, Claim(HeadIndex(p.head)))
  }

  lemma PopStep(p: Pool, w: Pc, next: u32)
    requires WellSized(p) && HeadIndex(p.head) < p.n
    ensures Step(With(p, w, AllocCas(p.head, p.updates, next)), 1, Go(false)) == AfterPop(p, w, next)
  {
    assert [w, AllocCas(p.head, p.updates, next)][1 := Claim(HeadIndex(p.head))] == [w, Claim(HeadIndex(p.head))];
  }

  lemma ClaimStep(p: Pool, w: Pc, slot: nat)
    requires WellSized(p) && slot < p.n
    ensures Step(With(p, w, Claim(slot)), 1, Go(false)) == With(p, w, ClaimCas(slot, p.own[slot]))
  {
    assert [w, Claim(slot)][1 := ClaimCas(slot, p.own[slot])] == [w, ClaimCas(slot, p.own[slot])];
  }

  lemma ClaimedStep(p: Pool, w: Pc, slot: nat)
    requires WellSized(p) && slot < p.n
    ensures Step(With(p, w, ClaimCas(slot, p.own[slot])), 1, Go(false))
         == With(Claimed(With(p, w, Idle), 1, slot, p.own[slot]), w, Idle)
  {
    assert [w, ClaimCas(slot, p.own[slot])][1 := Idle] == [w, Idle];
  }

  lemma ReleaseStep(p: Pool, w: Pc, slot: nat, generation: u64)
    requires WellSized(p) && slot < p.n && generation < ALLOCATED_BIT && p.own[slot] == ALLOCATED_BIT + generation
    ensures Step(With(p, w, FreeCas(slot, generation)), 1, Go(false))
         == With(Released(With(p, w, Idle), 1, slot, generation), w, Wipe(slot))
  {
    assert [w, FreeCas(slot, generation)][1 := Wipe(slot)] == [w, Wipe(slot)];
  }

  lemma WipeStep(p: Pool, w: Pc, slot: nat)
    requires WellSized(p) && slot < p.n
    ensures Step(With(p, w, Wipe(slot)), 1, Go(false))
         == With(p, w, PushLoad(slot)).(mem := p.mem[slot := Zeroed(|p.mem[slot]|)])
  {
    assert [w, Wipe(slot)][1 := PushLoad(slot)] == [w, PushLoad(slot)];
  }

  lemma PushLoadStep(p: Pool, w: Pc, slot: nat)
    requires WellSized(p)
    ensures Step(With(p, w, PushLoad(slot)), 1, Go(false)) == With(p, w, PushStore(slot, p.head))
  {
    assert [w, PushLoad(slot)][1 := PushStore(slot, p.head)] == [w, PushStore(slot, p.head)];
  }

  lemma LinkStep(p: Pool, w: Pc, slot: nat)
    requires WellSized(p) && slot < p.n
    ensures Step(With(p, w, PushStore(slot, p.head)), 1, Go(false))
         == With(p, w, PushCas(slot, p.head)).(next := p.next[slot := HeadIndex(p.head)])
  {
    assert [w, PushStore(slot, p.head)][1 := PushCas(slot, p.head)] == [w, PushCas(slot, p.head)];
  }

  lemma PushStep(p: Pool, w: Pc, slot: nat)
    requires WellSized(p) && slot < p.n
    ensures Step(With(p, w, PushCas(slot, p.head)), 1, Go(false))
            == With(Pushed(With(p, w, Idle), 1, slot, p.head), w, Idle)
  {
    assert [w, PushCas(slot, p.head)][1 := Idle] == [w, Idle];
  }

  // ---- What matters of a state between calls ----

  /** Three slots; thread 0 where `waiting` says, thread 1 idle. */
  predicate LooksLike(p: Pool, waiting: Pc, list: seq<nat>, next: seq<u32>, own: seq<u64>, allocs: seq<nat>,
                      updates: nat) {
    && WellSized(p) && p.n == 3 && p.threads == [waiting, Idle]
    && p.list == list && p.next == next && p.own == own && p.allocs == allocs && p.updates == updates
    && p.head == PackHead(Nth(list, 0), updates % TAGS)
  }

  function Generations(own: seq<u64>): (r: seq<nat>)
    ensures |r| == |own|
  {
    seq(|own|, s requires 0 <= s < |own| => own[s] % ALLOCATED_BIT)
  }

  /** No slot has wrapped: every word carries its number of allocations. */
  predicate Looks(p: Pool, waiting: Pc, list: seq<nat>, next: seq<u32>, own: seq<u64>, updates: nat) {
    LooksLike(p, waiting, list, next, own, Generations(own), updates)
  }

  /** The first five turns of an allocation: the slot is popped and about to be claimed. */
  lemma AllocPrefix(p: Pool, w: Pc, slot: nat, rest: seq<nat>, next: seq<u32>, own: seq<u64>, allocs: seq<nat>,
                    updates: nat)
      returns (q: Pool)
    requires LooksLike(p, w, [slot] + rest, next, own, allocs, updates) && slot < 3 && next[slot] == Nth(rest, 0)
    ensures HeadIndex(p.head) == slot && q == With(AfterPop(p, w, next[slot]), w, ClaimCas(slot, own[slot]))
    ensures Reach(p, Call(BeginAlloc)[..5], q) && WithinTagBound(q, 1)
    ensures WellSized(q) && q.own == own && q.allocs == allocs && q.log == p.log
  {
    HeadOf(slot, rest, updates);
    BeginStep(p, w, BeginAlloc);
    LoadStep(p, w);
    NextStep(p, w);
    PopStep(p, w, next[slot]);
    var popped := AfterPop(p, w, next[slot]);
    assert WellSized(popped) && popped == With(popped, w, Claim(slot));
    ClaimStep(popped, w, slot);
    q := With(popped, w, ClaimCas(slot, own[slot]));
    PrefixReaches(p, BeginAlloc, With(p, w, AllocLoad), With(p, w, AllocNext(p.head, updates)),
                  With(p, w, AllocCas(p.head, updates, next[slot])), popped, q);
  }

  lemma AllocCallAt(p: Pool, w: Pc, slot: nat, rest: seq<nat>, next: seq<u32>, own: seq<u64>, allocs: seq<nat>,
                    updates: nat)
      returns (q: Pool)
    requires LooksLike(p, w, [slot] + rest, next, own, allocs, updates) && slot < 3 && next[slot] == Nth(rest, 0)
    requires own[slot] < ALLOCATED_BIT && allocs[slot] < ALLOCATED_BIT
    ensures Reach(p, Call(BeginAlloc), q)
    ensures LooksLike(q, w, rest, next, own[slot := ALLOCATED_BIT + NextGeneration(own[slot])],
                      allocs[slot := allocs[slot] + 1], updates + 1)
  {
    var claiming := AllocPrefix(p, w, slot, rest, next, own, allocs, updates);
    var popped := AfterPop(p, w, next[slot]);
    ClaimedStep(popped, w, slot);
    q := With(Claimed(With(popped, w, Idle), 1, slot, own[slot]), w, Idle);
    ReachOne(claiming, 1, Go(false));
    ReachJoins(p, Call(BeginAlloc)[..5], claiming, [ON], q);
    assert Call(BeginAlloc)[..5] + [ON] == Call(BeginAlloc);
    AllocLooks(p, w, slot, rest, next, own, allocs, updates, popped);
  }

  lemma AllocCall(p: Pool, w: Pc, slot: nat, rest: seq<nat>, next: seq<u32>, own: seq<u64>,
                  updates: nat) returns (q: Pool)
    requires Looks(p, w, [slot] + rest, next, own, updates)
    requires slot < 3 && own[slot] + 1 < ALLOCATED_BIT && next[slot] == Nth(rest, 0)
    ensures Reach(p, Call(BeginAlloc), q)
    ensures Looks(q, w, rest, next, own[slot := ALLOCATED_BIT + own[slot] + 1], updates + 1)
  {
    GenerationsStep(own, slot);
    q := AllocCallAt(p, w, slot, rest, next, own, Generations(own), updates);
  }

  lemma GenerationsStep(own: seq<u64>, slot: nat)
    requires slot < |own| && own[slot] + 1 < ALLOCATED_BIT
    ensures NextGeneration(own[slot]) == own[slot] + 1 && Generations(own)[slot] == own[slot]
    ensures Generations(own)[slot := Generations(own)[slot] + 1]
            == Generations(own[slot := ALLOCATED_BIT + own[slot] + 1])
  {
    assert own[slot] % ALLOCATED_BIT == own[slot];
    assert (ALLOCATED_BIT + own[slot] + 1) % ALLOCATED_BIT == own[slot] + 1;
  }

  lemma HeadOf(slot: nat, rest: seq<nat>, updates: nat)
    requires slot < 3
    ensures Nth([slot] + rest, 0) == slot && HeadIndex(PackHead(slot, updates % TAGS)) == slot
  {
    TagAdvances(0, slot, updates);
    assert ([slot] + rest)[0] == slot;
  }

  lemma AllocLooks(p: Pool, w: Pc, slot: nat, rest: seq<nat>, next: seq<u32>, own: seq<u64>, allocs: seq<nat>,
                   updates: nat, popped: Pool)
    requires LooksLike(p, w, [slot] + rest, next, own, allocs, updates)
    requires slot < 3 && own[slot] < ALLOCATED_BIT && next[slot] == Nth(rest, 0) && HeadIndex(p.head) == slot
    requires popped == AfterPop(p, w, next[slot])
    ensures LooksLike(With(Claimed(With(popped, w, Idle), 1, slot, own[slot]), w, Idle), w, rest, next,
                      own[slot := ALLOCATED_BIT + NextGeneration(own[slot])],
                      allocs[slot := allocs[slot] + 1], updates + 1)
  {
    TagAdvances(next[slot], slot, updates);
    assert Nth([slot] + rest, 0) == slot;
    assert ([slot] + rest)[1..] == rest;
  }

  lemma FreeCallAt(p: Pool, w: Pc, slot: nat, list: seq<nat>, next: seq<u32>, own: seq<u64>, allocs: seq<nat>,
                   updates: nat, generation: nat) returns (q: Pool)
    requires LooksLike(p, w, list, next, own, allocs, updates)
    requires slot < 3 && generation < ALLOCATED_BIT && own[slot] == ALLOCATED_BIT + generation
    ensures Reach(p, Call(BeginFree(slot, generation)), q)
    ensures LooksLike(q, w, [slot] + list, next[slot := Nth(list, 0)], own[slot := generation], allocs, updates + 1)
  {
    var a := BeginFree(slot, generation);
    BeginStep(p, w, a);
    ReleaseStep(p, w, slot, generation);
    var released := With(Released(With(p, w, Idle), 1, slot, generation), w, Wipe(slot));
    assert WellSized(released) && released == With(released, w, Wipe(slot));
    WipeStep(released, w, slot);
    var wiped := With(released, w, PushLoad(slot)).(mem := p.mem[slot := Zeroed(|p.mem[slot]|)]);
    assert WellSized(wiped) && wiped == With(wiped, w, PushLoad(slot));
    PushLoadStep(wiped, w, slot);
    LinkStep(wiped, w, slot);
    var linked := With(wiped, w, PushCas(slot, p.head)).(next := next[slot := HeadIndex(p.head)]);
    assert WellSized(linked) && linked == With(linked, w, PushCas(slot, p.head));
    PushStep(linked, w, slot);
    q := With(Pushed(With(linked, w, Idle), 1, slot, p.head), w, Idle);
    CallReaches(p, a, With(p, w, FreeCas(slot, generation)), released, wiped,
                With(wiped, w, PushStore(slot, p.head)), linked, q);
    FreeLooks(p, w, slot, list, next, own, allocs, updates, generation, q);
  }

  lemma FreeLooks(p: Pool, w: Pc, slot: nat, list: seq<nat>, next: seq<u32>, own: seq<u64>, allocs: seq<nat>,
                  updates: nat, generation: nat, q: Pool)
    requires LooksLike(p, w, list, next, own, allocs, updates)
    requires slot < 3 && generation < ALLOCATED_BIT && own[slot] == ALLOCATED_BIT + generation
    requires q == p.(head := PackHead(slot, (HeadTag(p.head) + 1) % TAGS), updates := updates + 1,
                     list := [slot] + list,
                     next := next[slot := HeadIndex(p.head)], own := own[slot := generation],
                     mem := q.mem, place := q.place, log := q.log)
    requires |q.mem| == |q.place| == 3
    ensures LooksLike(q, w, [slot] + list, next[slot := Nth(list, 0)], own[slot := generation], allocs, updates + 1)
  {
    TagAdvances(slot, Nth(list, 0), updates);
    assert Nth([slot] + list, 0) == slot;
  }

  lemma FreeCall(p: Pool, w: Pc, slot: nat, list: seq<nat>, next: seq<u32>, own: seq<u64>, updates: nat,
                 generation: nat)
      returns (q: Pool)
    requires Looks(p, w, list, next, own, updates)
    requires slot < 3 && generation < ALLOCATED_BIT && own[slot] == ALLOCATED_BIT + generation
    ensures Reach(p, Call(BeginFree(slot, generation)), q)
    ensures Looks(q, w, [slot] + list, next[slot := Nth(list, 0)], own[slot := generation], updates + 1)
  {
    q := FreeCallAt(p, w, slot, list, next, own, Generations(own), updates, generation);
    assert Generations(own) == Generations(own[slot := generation]);
  }

  // ---- Towards a stale load ----

  const E: u32 := FREE_LIST_EMPTY
  const B: u64 := ALLOCATED_BIT

  lemma FreshLooks(mem: seq<seq<bv8>>)
    requires |mem| == 3
    ensures Looks(Fresh(mem, 2), Idle, [0, 1, 2], [1, 2, E], [0, 0, 0], 0)
  {
    var p := Fresh(mem, 2);
    assert p.list == [0, 1, 2] && p.next == [1, 2, E] && p.own == [0, 0, 0] && p.threads == [Idle, Idle];
  }

  lemma OpeningAllocs(p: Pool) returns (turns: seq<Turn>, q: Pool)
    requires Looks(p, Idle, [0, 1, 2], [1, 2, E], [0, 0, 0], 0)
    ensures Reach(p, turns, q) && Looks(q, Idle, [2], [1, 2, E], [B + 1, B + 1, 0], 2)
  {
    assert [0, 1, 2] == [0] + [1, 2] && [1, 2] == [1] + [2];
    var p1 := AllocCall(p, Idle, 0, [1, 2], [1, 2, E], [0, 0, 0], 0);
    assert [0, 0, 0][0 := B + 0 + 1] == [B + 1, 0, 0];
    q := AllocCall(p1, Idle, 1, [2], [1, 2, E], [B + 1, 0, 0], 1);
    assert [B + 1, 0, 0][1 := B + 0 + 1] == [B + 1, B + 1, 0];
    turns := Call(BeginAlloc) + Call(BeginAlloc);
    ReachJoins(p, Call(BeginAlloc), p1, Call(BeginAlloc), q);
  }

  /** Thread 1 allocates every slot and frees 1, then 0: the list is 0, 1. */
  lemma Opening(p: Pool) returns (turns: seq<Turn>, q: Pool)
    requires Looks(p, Idle, [0, 1, 2], [1, 2, E], [0, 0, 0], 0)
    ensures Reach(p, turns, q) && Looks(q, Idle, [0, 1], [1, E, E], [1, 1, B + 1], 5)
  {
    var allocs, p1 := OpeningAllocs(p);
    assert [2] == [2] + [];
    var p2 := AllocCall(p1, Idle, 2, [], [1, 2, E], [B + 1, B + 1, 0], 2);
    assert [B + 1, B + 1, 0][2 := B + 0 + 1] == [B + 1, B + 1, B + 1];
    ReachJoins(p, allocs, p1, Call(BeginAlloc), p2);
    var frees;
    frees, q := OpeningFrees(p2);
    turns := allocs + Call(BeginAlloc) + frees;
    ReachJoins(p, allocs + Call(BeginAlloc), p2, frees, q);
  }

  lemma OpeningFrees(p: Pool) returns (turns: seq<Turn>, q: Pool)
    requires Looks(p, Idle, [], [1, 2, E], [B + 1, B + 1, B + 1], 3)
    ensures Reach(p, turns, q) && Looks(q, Idle, [0, 1], [1, E, E], [1, 1, B + 1], 5)
  {
    var p1 := FreeCall(p, Idle, 1, [], [1, 2, E], [B + 1, B + 1, B + 1], 3, 1);
    assert [1] + [] == [1] && [1, 2, E][1 := E] == [1, E, E] && [B + 1, B + 1, B + 1][1 := 1] == [B + 1, 1, B + 1];
    q := FreeCall(p1, Idle, 0, [1], [1, E, E], [B + 1, 1, B + 1], 4, 1);
    assert [0] + [1] == [0, 1] && [1, E, E][0 := 1] == [1, E, E] && [B + 1, 1, B + 1][0 := 1] == [1, 1, B + 1];
    turns := Call(BeginFree(1, 1)) + Call(BeginFree(0, 1));
    ReachJoins(p, Call(BeginFree(1, 1)), p1, Call(BeginFree(0, 1)), q);
  }

  /** Where thread 0 stops: it has loaded the head at update 5 and read that slot 1 follows slot 0. */
  function Stale(): Pc { AllocCas(PackHead(0, 5), 5, 1) }

  lemma LoadHead(p: Pool) returns (turns: seq<Turn>, q: Pool)
    requires Looks(p, Idle, [0, 1], [1, E, E], [1, 1, B + 1], 5)
    ensures Reach(p, turns, q) && Looks(q, Stale(), [0, 1], [1, E, E], [1, 1, B + 1], 5)
  {
    var p1 := p.(threads := [AllocLoad, Idle]);
    var p2 := p.(threads := [AllocNext(PackHead(0, 5), 5), Idle]);
    q := p.(threads := [Stale(), Idle]);
    PackRoundTrip(0, 5);
    assert p.threads[0 := AllocLoad] == p1.threads && p1.threads[0 := AllocNext(PackHead(0, 5), 5)] == p2.threads;
    assert p2.threads[0 := Stale()] == q.threads;
    ReachOne(p, 0, BeginAlloc);
    ReachOne(p1, 0, Go(false));
    ReachOne(p2, 0, Go(false));
    ReachJoins(p, [Turn(0, BeginAlloc)], p1, [Turn(0, Go(false))], p2);
    turns := [Turn(0, BeginAlloc)] + [Turn(0, Go(false))] + [Turn(0, Go(false))];
    ReachJoins(p, [Turn(0, BeginAlloc)] + [Turn(0, Go(false))], p2, [Turn(0, Go(false))], q);
  }

  /** Thread 1 takes 0 and 1 and gives back 2, then 0: slot 1 is owned and the list is 0, 2. */
  lemma Reorder(p: Pool) returns (turns: seq<Turn>, q: Pool)
    requires Looks(p, Stale(), [0, 1], [1, E, E], [1, 1, B + 1], 5)
    ensures Reach(p, turns, q) && Looks(q, Stale(), [0, 2], [2, E, E], [2, B + 2, 1], 9)
  {
    assert [0, 1] == [0] + [1] && [1] == [1] + [];
    var p1 := AllocCall(p, Stale(), 0, [1], [1, E, E], [1, 1, B + 1], 5);
    assert [1, 1, B + 1][0 := B + 1 + 1] == [B + 2, 1, B + 1];
    var p2 := AllocCall(p1, Stale(), 1, [], [1, E, E], [B + 2, 1, B + 1], 6);
    assert [B + 2, 1, B + 1][1 := B + 1 + 1] == [B + 2, B + 2, B + 1];
    ReachJoins(p, Call(BeginAlloc), p1, Call(BeginAlloc), p2);
    turns := Call(BeginAlloc) + Call(BeginAlloc);
    var more;
    more, q := ReorderFrees(p2);
    ReachJoins(p, turns, p2, more, q);
    turns := turns + more;
  }

  lemma ReorderFrees(p: Pool) returns (turns: seq<Turn>, q: Pool)
    requires Looks(p, Stale(), [], [1, E, E], [B + 2, B + 2, B + 1], 7)
    ensures Reach(p, turns, q) && Looks(q, Stale(), [0, 2], [2, E, E], [2, B + 2, 1], 9)
  {
    var p1 := FreeCall(p, Stale(), 2, [], [1, E, E], [B + 2, B + 2, B + 1], 7, 1);
    assert [2] + [] == [2] && [1, E, E][2 := E] == [1, E, E] && [B + 2, B + 2, B + 1][2 := 1] == [B + 2, B + 2, 1];
    q := FreeCall(p1, Stale(), 0, [2], [1, E, E], [B + 2, B + 2, 1], 8, 2);
    assert [0] + [2] == [0, 2] && [1, E, E][0 := 2] == [2, E, E] && [B + 2, B + 2, 1][0 := 2] == [2, B + 2, 1];
    turns := Call(BeginFree(2, 1)) + Call(BeginFree(0, 2));
    ReachJoins(p, Call(BeginFree(2, 1)), p1, Call(BeginFree(0, 2)), q);
  }

  // ---- Rounds ----

  /** Slot 0 heads the list before `rest` and links to it; the other two slots keep their words. */
  predicate BeforeRound(p: Pool, w: Pc, rest: seq<nat>, next: seq<u32>, others: seq<u64>, g: u64, updates: nat) {
    |next| == 3 && |others| == 2 && next[0] == Nth(rest, 0) && Looks(p, w, [0] + rest, next, [g] + others, updates)
  }

  lemma RoundAlloc(p: Pool, w: Pc, rest: seq<nat>, next: seq<u32>, others: seq<u64>, g: nat, updates: nat, h: nat)
      returns (q: Pool)
    requires h == g + 1 < B && BeforeRound(p, w, rest, next, others, g, updates)
    ensures Reach(p, Call(BeginAlloc), q) && Looks(q, w, rest, next, [B + h] + others, updates + 1)
  {
    var own := [g] + others;
    assert own[0 := B + own[0] + 1] == [B + h] + others;
    q := AllocCall(p, w, 0, rest, next, own, updates);
  }

  lemma RoundFree(p: Pool, w: Pc, rest: seq<nat>, next: seq<u32>, others: seq<u64>, g: nat,
                  updates: nat) returns (q: Pool)
    requires g < B && |next| == 3 && |others| == 2 && next[0] == Nth(rest, 0)
    requires Looks(p, w, rest, next, [B + g] + others, updates)
    ensures Reach(p, Call(BeginFree(0, g)), q) && BeforeRound(q, w, rest, next, others, g, updates + 1)
  {
    var own := [B + g] + others;
    q := FreeCall(p, w, 0, rest, next, own, updates, g);
    assert next[0 := Nth(rest, 0)] == next && own[0 := g] == [g] + others;
  }

  /** Allocating and freeing slot 0 once: two head updates, everything else as it was but its generation. */
  lemma Round(p: Pool, w: Pc, rest: seq<nat>, next: seq<u32>, others: seq<u64>, g: nat, updates: nat)
      returns (turns: seq<Turn>, q: Pool)
    requires g + 1 < B && BeforeRound(p, w, rest, next, others, g, updates)
    ensures Reach(p, turns, q) && BeforeRound(q, w, rest, next, others, g + 1, updates + 2)
  {
    var h := g + 1;
    var p1 := RoundAlloc(p, w, rest, next, others, g, updates, h);
    q := RoundFree(p1, w, rest, next, others, h, updates + 1);
    turns := Call(BeginAlloc) + Call(BeginFree(0, h));
    ReachJoins(p, Call(BeginAlloc), p1, Call(BeginFree(0, h)), q);
  }

  lemma {:induction false} Rounds(p: Pool, w: Pc, rest: seq<nat>, next: seq<u32>, others: seq<u64>, g: nat,
                                  updates: nat, k: nat)
      returns (turns: seq<Turn>, q: Pool)
    requires g + k < B && BeforeRound(p, w, rest, next, others, g, updates)
    ensures Reach(p, turns, q) && BeforeRound(q, w, rest, next, others, g + k, updates + 2 * k)
    decreases k
  {
    if k == 0 {
      turns, q := [], p;
    } else {
      var first, middle := Round(p, w, rest, next, others, g, updates);
      var more;
      more, q := Rounds(middle, w, rest, next, others, g + 1, updates + 2, k - 1);
      turns := first + more;
      ReachJoins(p, first, middle, more, q);
    }
  }

  // ---- The tag limit ----

  /**
   Every step but the last is inside the limits; the last is a pop exactly 2^32 updates old, and makes an owned
   slot the head.
   */
  ghost predicate BreaksAtTheBound(p: Pool, turns: seq<Turn>) {
    && turns != []
    && var (before, last) := (turns[..|turns| - 1], turns[|turns| - 1]);
       var (q, q') := (Run(p, before), Run(p, turns));
       && WithinBounds(p, before) && WithinGenerationBound(q, last.thread)
       && last.thread < |q.threads| && q.threads[last.thread].AllocCas?
          && q.updates == q.threads[last.thread].seen + TAGS
       && WellSized(q') && !ListInv(q') && HeadIndex(q'.head) < q'.n && IsAllocated(q'.own[HeadIndex(q'.head)])
  }

  lemma StalePopBreaks(q: Pool)
    requires Looks(q, Stale(), [0, 2], [2, E, E], [0x8000_0000, B + 2, 1], TAGS + 5)
    ensures var q' := Step(q, 0, Go(false));
            WellSized(q') && !ListInv(q') && HeadIndex(q'.head) == 1 && IsAllocated(q'.own[1])
  {
    var q' := Step(q, 0, Go(false));
    assert (TAGS + 5) % TAGS == 5;
    PackRoundTrip(0, 5);
    assert q' == Popped(q, 0, q.head, 1) && q'.list == [2];
    PackRoundTrip(1, 6);
    PackRoundTrip(2, q'.updates % TAGS);
  }

  /** Thread 0's load is exactly 2^32 updates old and the head looks as it did, but slot 1 is owned. */
  lemma ToTheStalePop(p: Pool) returns (turns: seq<Turn>, q: Pool)
    requires Looks(p, Idle, [0, 1, 2], [1, 2, E], [0, 0, 0], 0)
    ensures Reach(p, turns, q) && Looks(q, Stale(), [0, 2], [2, E, E], [0x8000_0000, B + 2, 1], TAGS + 5)
  {
    var a, p1 := Opening(p);
    var b, p2 := LoadHead(p1);
    ReachJoins(p, a, p1, b, p2);
    var c, p3 := Reorder(p2);
    ReachJoins(p, a + b, p2, c, p3);
    assert [0, 2] == [0] + [2] && [2, B + 2, 1] == [2] + [B + 2, 1];
    var d;
    d, q := Rounds(p3, Stale(), [2], [2, E, E], [B + 2, 1], 2, 9, 0x7FFF_FFFE);
    assert [0x8000_0000] + [B + 2, 1] == [0x8000_0000, B + 2, 1];
    ReachJoins(p, a + b + c, p3, d, q);
    turns := a + b + c + d;
  }

  /** The documented tag limit is exact: one head update more, and a reachable pool is corrupted. */
  lemma TagBoundIsTight(mem: seq<seq<bv8>>)
    requires |mem| == 3
    ensures exists turns: seq<Turn> :: BreaksAtTheBound(Fresh(mem, 2), turns)
  {
    var (p, last) := (Fresh(mem, 2), [Turn(0, Go(false))]);
    FreshLooks(mem);
    var before, q := ToTheStalePop(p);
    StalePopBreaks(q);
    RunConcat(p, before, last);
    assert last[1..] == [];
    assert (before + last)[..|before|] == before;
    assert BreaksAtTheBound(p, before + last);
  }

  // ---- The generation limit ----

  lemma LastGenerationWraps()
    ensures NextGeneration(B - 1) == 0
  {
  }

  /** The words and counts of slot 0 before and after its 2^63-th allocation. */
  lemma WrapWords(own: seq<u64>, allocs: seq<nat>)
    requires own == [B - 1] + [0, 0] && allocs == Generations(own)
    ensures own[0 := B + NextGeneration(own[0])] == [B, 0, 0] && allocs[0 := allocs[0] + 1] == [B, 0, 0]
    ensures own[0] == allocs[0] == B - 1
  {
    LastGenerationWraps();
  }

  lemma WrapAlloc(p: Pool, updates: nat) returns (q: Pool)
    requires BeforeRound(p, Idle, [1, 2], [1, 2, E], [0, 0], B - 1, updates)
    ensures Reach(p, Call(BeginAlloc), q)
    ensures LooksLike(q, Idle, [1, 2], [1, 2, E], [B, 0, 0], [B, 0, 0], updates + 1)
  {
    var own: seq<u64> := [B - 1] + [0, 0];
    WrapWords(own, Generations(own));
    q := AllocCallAt(p, Idle, 0, [1, 2], [1, 2, E], own, Generations(own), updates);
  }

  lemma WrapFree(p: Pool, updates: nat) returns (q: Pool)
    requires LooksLike(p, Idle, [1, 2], [1, 2, E], [B, 0, 0], [B, 0, 0], updates)
    ensures Reach(p, Call(BeginFree(0, 0)), q)
    ensures LooksLike(q, Idle, [0] + [1, 2], [1, 2, E], [0, 0, 0], [B, 0, 0], updates + 1)
  {
    q := FreeCallAt(p, Idle, 0, [1, 2], [1, 2, E], [B, 0, 0], [B, 0, 0], updates, 0);
    assert [1, 2, E][0 := 1] == [1, 2, E] && [B, 0, 0][0 := 0] == [0, 0, 0];
  }

  /** Slot 0 is allocated and freed 2^63 times, the last time as generation 0, and is about to be claimed again. */
  lemma ToTheLimit(p: Pool) returns (turns: seq<Turn>, q: Pool)
    requires Looks(p, Idle, [0, 1, 2], [1, 2, E], [0, 0, 0], 0)
    ensures Reach(p, turns, q) && WithinTagBound(q, 1) && WellSized(q)
    ensures q.threads == [Idle, ClaimCas(0, 0)] && q.own[0] == 0 && q.allocs[0] == B
  {
    assert [0, 1, 2] == [0] + [1, 2] && [0, 0, 0] == [0] + [0, 0];
    var a, p1 := Rounds(p, Idle, [1, 2], [1, 2, E], [0, 0], 0, 0, B - 1);
    var updates := 2 * (B - 1);
    var p2 := WrapAlloc(p1, updates);
    ReachJoins(p, a, p1, Call(BeginAlloc), p2);
    var p3 := WrapFree(p2, updates + 1);
    ReachJoins(p, a + Call(BeginAlloc), p2, Call(BeginFree(0, 0)), p3);
    q := AllocPrefix(p3, Idle, 0, [1, 2], [1, 2, E], [0, 0, 0], [B, 0, 0], updates + 2);
    turns := a + Call(BeginAlloc) + Call(BeginFree(0, 0)) + Call(BeginAlloc)[..5];
    ReachJoins(p, a + Call(BeginAlloc) + Call(BeginFree(0, 0)), p3, Call(BeginAlloc)[..5], q);
  }

  /**
   Every step but the last is inside the limits; the last claims a slot allocated exactly 2^63 times, and
   issues a token again.
   */
  ghost predicate ReissuesAtTheBound(p: Pool, turns: seq<Turn>) {
    && turns != []
    && var (before, last) := (turns[..|turns| - 1], turns[|turns| - 1]);
       var (q, q') := (Run(p, before), Run(p, turns));
       && WithinBounds(p, before) && WithinTagBound(q, last.thread)
       && last.thread < |q.threads| && q.threads[last.thread].ClaimCas? && q.threads[last.thread].slot < |q.allocs|
       && q.allocs[q.threads[last.thread].slot] == ALLOCATED_BIT
       && exists s: nat, g: nat :: q'.log == q.log + [DidAlloc(s, g)] && DidAlloc(s, g) in q.log
  }

  lemma FirstTokenIsLogged(q: Pool)
    requires WellSized(q) && BooksInv(q) && q.allocs[0] == B
    ensures DidAlloc(0, 1) in q.log
  {
    assert Issued(q.allocs[0], 1);
  }

  lemma ReissueStep(q: Pool)
    requires FullInv(q) && q.threads == [Idle, ClaimCas(0, 0)] && q.own[0] == 0 && q.allocs[0] == B
    ensures var q' := Step(q, 1, Go(false)); q'.log == q.log + [DidAlloc(0, 1)] && DidAlloc(0, 1) in q.log
  {
    FirstTokenIsLogged(q);
    assert NextGeneration(0) == 1;
  }

  /** The documented generation limit is exact: one allocation more, and a token is issued a second time. */
  lemma GenerationBoundIsTight(mem: seq<seq<bv8>>)
    requires |mem| == 3
    ensures exists turns: seq<Turn> :: ReissuesAtTheBound(Fresh(mem, 2), turns)
  {
    var p := Fresh(mem, 2);
    FreshLooks(mem);
    var before, q := ToTheLimit(p);
    FreshInv(mem, 2);
    RunKeepsInv(p, before);
    ReissueStep(q);
    RunConcat(p, before, [ON]);
    assert [ON][1..] == [];
    assert (before + [ON])[..|before|] == before;
    assert ReissuesAtTheBound(p, before + [ON]);
  }
}
