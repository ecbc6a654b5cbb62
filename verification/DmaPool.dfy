/**
 The DMA pool: an ABA-tagged Treiber stack with one ownership word per slot.

 Every atomic load, store and compare-exchange of `allocate` and `free` is one step of a thread;
 any number of threads interleave in any order, and a weak compare-exchange may fail spuriously.
 The fields `list`, `place`, `updates`, `allocs` and `log`, and the `seen` of a thread, which copies
 `updates`, record history: they only ever flow into one another, and no step's choice depends on them.
 */
module DmaPool {
  import opened Words

  const FREE_LIST_EMPTY: int := 0xFFFF_FFFF
  const TAGS: int := 0x1_0000_0000
  const ALLOCATED_BIT: int := 0x8000_0000_0000_0000

  // ---- Packed words ----

  function PackHead(index: u32, generation: u32): u64 { generation * TAGS + index }
  function HeadIndex(word: u64): u32 { word % TAGS }
  function HeadTag(word: u64): u32 { word / TAGS }

  lemma PackRoundTrip(index: u32, generation: u32)
    ensures HeadIndex(PackHead(index, generation)) == index && HeadTag(PackHead(index, generation)) == generation
  {
  }

  // ---- State ----

  datatype Pc =
    | Idle
    | AllocLoad
    | AllocNext(observed: u64, seen: nat)
    | AllocCas(observed: u64, seen: nat, next: u32)
    | Claim(slot: nat)
    | ClaimCas(slot: nat, state: u64)
    | FreeCas(slot: nat, generation: u64)
    | Wipe(slot: nat)
    | PushLoad(slot: nat)
    | PushStore(slot: nat, observed: u64)
    | PushCas(slot: nat, observed: u64)

  /** Where a slot is: on the free list, in the hands of a thread between list and owner, or owned by a caller. */
  datatype Place = Listed | Held(thread: nat) | Owned

  datatype Out = DidAlloc(slot: nat, generation: nat) | DidFree(slot: nat, generation: nat) | OutOfMemory
      | OutOfBounds | DoubleFree

  datatype Pool = Pool(
    n: nat,
    head: u64,
    next: seq<u32>,
    own: seq<u64>,
    mem: seq<seq<bv8>>,
    threads: seq<Pc>,
    list: seq<nat>,
    place: seq<Place>,
    updates: nat,
    allocs: seq<nat>,
    log: seq<Out>)

  datatype Action =
    | BeginAlloc
    | BeginFree(slot: nat, generation: u64)
    | Go(spurious: bool)
    | Write(slot: nat, generation: u64, data: seq<bv8>)

  function Zeroed(length: nat): seq<bv8> { seq(length, _ => 0) }

  function Goto(p: Pool, t: nat, pc: Pc): Pool
    requires t < |p.threads|
  {
    p.(threads := p.threads[t := pc])
  }

  function Return(p: Pool, t: nat, out: Out): Pool
    requires t < |p.threads|
  {
    p.(threads := p.threads[t := Idle], log := p.log + [out])
  }

  predicate WellSized(p: Pool) {
    0 < p.n <= FREE_LIST_EMPTY && |p.next| == |p.own| == |p.mem| == |p.place| == |p.allocs| == p.n
  }

  /** Successful compare-exchange of `allocate` on the head. */
  function Popped(p: Pool, t: nat, observed: u64, next: u32): Pool
    requires t < |p.threads| && HeadIndex(observed) < |p.place|
  {
    p.(head := PackHead(next, (HeadTag(observed) + 1) % TAGS), updates := p.updates + 1,
       list := if p.list == [] then [] else p.list[1..],
       place := p.place[HeadIndex(observed) := Held(t)], threads := p.threads[t := Claim(HeadIndex(observed))])
  }

  /** Successful compare-exchange of `free` on the head. */
  function Pushed(p: Pool, t: nat, slot: nat, observed: u64): Pool
    requires t < |p.threads| && slot < |p.place| && slot < TAGS
  {
    p.(head := PackHead(slot, (HeadTag(observed) + 1) % TAGS), updates := p.updates + 1, list := [slot] + p.list,
       place := p.place[slot := Listed], threads := p.threads[t := Idle])
  }

  function NextGeneration(state: u64): (r: u64)
    ensures r < ALLOCATED_BIT
  {
    (state % ALLOCATED_BIT + 1) % ALLOCATED_BIT
  }

  /** Successful claim of the popped slot. */
  function Claimed(p: Pool, t: nat, slot: nat, state: u64): Pool
    requires t < |p.threads| && slot < |p.own| == |p.place| == |p.allocs|
  {
    p.(own := p.own[slot := ALLOCATED_BIT + NextGeneration(state)], place := p.place[slot := Owned],
       allocs := p.allocs[slot := p.allocs[slot] + 1], threads := p.threads[t := Idle],
       log := p.log + [DidAlloc(slot, NextGeneration(state))])
  }

  /** Successful release of an owned slot. */
  function Released(p: Pool, t: nat, slot: nat, generation: u64): Pool
    requires t < |p.threads| && slot < |p.own| == |p.place|
  {
    p.(own := p.own[slot := generation], place := p.place[slot := Held(t)], threads := p.threads[t := Wipe(slot)],
       log := p.log + [DidFree(slot, generation)])
  }

  /** One step of thread `t`; a step that does not apply changes nothing. */
  function Step(p: Pool, t: nat, a: Action): Pool {
    if t >= |p.threads| || !WellSized(p) then p
    else match (p.threads[t], a)
      case (Idle, BeginAlloc) => Goto(p, t, AllocLoad)
      case (Idle, BeginFree(slot, generation)) =>
        if slot >= p.n then Return(p, t, OutOfBounds)
        else if generation >= ALLOCATED_BIT then Return(p, t, DoubleFree)
        else Goto(p, t, FreeCas(slot, generation))
      case (Idle, Write(slot, generation, data)) =>
        if slot < p.n && generation < ALLOCATED_BIT && p.own[slot] == ALLOCATED_BIT + generation
            && |data| == |p.mem[slot]|
        then p.(mem := p.mem[slot := data]) else p
      case (AllocLoad, Go(_)) => Goto(p, t, AllocNext(p.head, p.updates))
      case (AllocNext(observed, seen), Go(_)) =>
        if HeadIndex(observed) == FREE_LIST_EMPTY then Return(p, t, OutOfMemory)
        else if HeadIndex(observed) < p.n then Goto(p, t, AllocCas(observed, seen, p.next[HeadIndex(observed)]))
        else p
      case (AllocCas(observed, seen, next), Go(spurious)) =>
        if !spurious && p.head == observed && HeadIndex(observed) < p.n then Popped(p, t, observed, next)
        else Goto(p, t, AllocNext(p.head, p.updates))
      case (Claim(slot), Go(_)) => if slot < p.n then Goto(p, t, ClaimCas(slot, p.own[slot])) else p
      case (ClaimCas(slot, state), Go(_)) =>
        if slot < p.n && p.own[slot] == state then Claimed(p, t, slot, state) else Return(p, t, DoubleFree)
      case (FreeCas(slot, generation), Go(_)) =>
        if slot < p.n && p.own[slot] == ALLOCATED_BIT + generation then Released(p, t, slot, generation)
        else Return(p, t, DoubleFree)
      case (Wipe(slot), Go(_)) =>
        if slot < p.n then Goto(p, t, PushLoad(slot)).(mem := p.mem[slot := Zeroed(|p.mem[slot]|)]) else p
      case (PushLoad(slot), Go(_)) => Goto(p, t, PushStore(slot, p.head))
      case (PushStore(slot, observed), Go(_)) =>
        if slot < p.n then Goto(p, t, PushCas(slot, observed)).(next := p.next[slot := HeadIndex(observed)]) else p
      case (PushCas(slot, observed), Go(spurious)) =>
        if !spurious && p.head == observed && slot < p.n then Pushed(p, t, slot, observed)
        else Goto(p, t, PushStore(slot, p.head))
      case _ => p
  }

  /** Fewer than 2^32 head updates fall between a popper's load and its compare-exchange. */
  predicate WithinTagBound(p: Pool, t: nat) {
    t < |p.threads| && p.threads[t].AllocCas? ==> p.updates < p.threads[t].seen + TAGS
  }

  // ---- Invariants ----

  /** The thread has a slot in hand: popped and not yet claimed, or released and not yet pushed. */
  predicate InHand(pc: Pc) {
    pc.Claim? || pc.ClaimCas? || pc.Wipe? || pc.PushLoad? || pc.PushStore? || pc.PushCas?
  }

  function Nth(list: seq<nat>, i: nat): u32 {
    if i < |list| && list[i] < FREE_LIST_EMPTY then list[i] else FREE_LIST_EMPTY
  }

  /** `next` links the slots of `list` in order, ends after the last one, and never comes back. */
  ghost predicate Chained(next: seq<u32>, list: seq<nat>) {
    && |next| <= FREE_LIST_EMPTY
    && (forall i :: 0 <= i < |list| ==> list[i] < |next| && next[list[i]] == Nth(list, i + 1))
    && (forall i, j :: 0 <= i < j < |list| ==> list[i] != list[j])
  }

  ghost predicate ListInv(p: Pool)
    requires WellSized(p)
  {
    Chained(p.next, p.list) && p.head == PackHead(Nth(p.list, 0), p.updates % TAGS)
  }

  /** Every slot is in exactly one place, and each place is what the memory and the threads say. */
  ghost predicate PlaceInv(p: Pool)
    requires WellSized(p)
  {
    && (forall s :: 0 <= s < p.n ==> (p.place[s].Listed? <==> s in p.list))
    && (forall s :: 0 <= s < p.n ==> (p.place[s].Owned? <==> p.own[s] >= ALLOCATED_BIT))
    && (forall s :: 0 <= s < p.n && p.place[s].Held? ==>
          p.place[s].thread < |p.threads| && InHand(p.threads[p.place[s].thread])
              && p.threads[p.place[s].thread].slot == s)
    && (forall t :: 0 <= t < |p.threads| && InHand(p.threads[t]) ==>
          p.threads[t].slot < p.n && p.place[p.threads[t].slot] == Held(t))
  }

  predicate ValidIndex(p: Pool, word: u64) { HeadIndex(word) == FREE_LIST_EMPTY || HeadIndex(word) < p.n }

  /** What a thread in mid-operation remembers. */
  predicate ThreadInv(p: Pool, pc: Pc)
    requires WellSized(p)
  {
    match pc
    case AllocNext(observed, seen) =>
      ValidIndex(p, observed) && seen <= p.updates && HeadTag(observed) == seen % TAGS
          && (seen == p.updates ==> observed == p.head)
    case AllocCas(observed, seen, next) =>
      HeadIndex(observed) < p.n && seen <= p.updates && HeadTag(observed) == seen % TAGS &&
      (seen == p.updates ==> observed == p.head && next == p.next[HeadIndex(observed)])
    case ClaimCas(slot, state) => slot < p.n && state == p.own[slot]
    case FreeCas(slot, generation) => slot < p.n && generation < ALLOCATED_BIT
    case PushLoad(slot) => slot < p.n
    case PushStore(slot, observed) => slot < p.n && ValidIndex(p, observed)
    case PushCas(slot, observed) => slot < p.n && ValidIndex(p, observed) && p.next[slot] == HeadIndex(observed)
    case _ => true
  }

  ghost predicate ThreadsInv(p: Pool)
    requires WellSized(p)
  {
    forall t :: 0 <= t < |p.threads| ==> ThreadInv(p, p.threads[t])
  }

  ghost predicate PoolInv(p: Pool) {
    WellSized(p) && ListInv(p) && PlaceInv(p) && ThreadsInv(p)
  }

  // ---- Steps of the list ----

  /** A head compare-exchange that succeeds within the tag bound saw no update since its load. */
  lemma CasSawNoUpdate(p: Pool, t: nat)
    requires PoolInv(p) && t < |p.threads| && p.threads[t].AllocCas? && WithinTagBound(p, t)
    requires p.head == p.threads[t].observed
    ensures p.threads[t].seen == p.updates && p.list != [] && HeadIndex(p.head) == p.list[0]
    ensures p.threads[t].next == Nth(p.list, 1) && HeadTag(p.head) == p.updates % TAGS
  {
  }

  lemma TailMembers(list: seq<nat>, s: nat)
    requires list != [] && forall i :: 0 < i < |list| ==> list[i] != list[0]
    ensures s in list[1..] <==> s in list && s != list[0]
  {
  }

  lemma ChainedTail(next: seq<u32>, list: seq<nat>)
    requires Chained(next, list) && list != []
    ensures Chained(next, list[1..])
  {
  }

  lemma NextTag(updates: nat)
    ensures (updates % TAGS + 1) % TAGS == (updates + 1) % TAGS
  {
  }

  /** A head word written after a compare-exchange carries the tag of the next update. */
  lemma TagAdvances(index: u32, observed: u32, updates: nat)
    ensures PackHead(index, (HeadTag(PackHead(observed, updates % TAGS)) + 1) % TAGS)
            == PackHead(index, (updates + 1) % TAGS)
    ensures HeadIndex(PackHead(observed, updates % TAGS)) == observed
  {
    PackRoundTrip(observed, updates % TAGS);
    NextTag(updates);
  }

  lemma PoppedKeepsList(p: Pool, t: nat)
    requires PoolInv(p) && t < |p.threads| && p.threads[t].AllocCas? && WithinTagBound(p, t)
    requires p.head == p.threads[t].observed
    ensures p.list != [] && HeadIndex(p.head) == p.list[0] < p.n
    ensures ListInv(Popped(p, t, p.threads[t].observed, p.threads[t].next))
  {
    CasSawNoUpdate(p, t);
    ChainedTail(p.next, p.list);
    TagAdvances(Nth(p.list, 1), Nth(p.list, 0), p.updates);
    assert Nth(p.list[1..], 0) == Nth(p.list, 1);
  }

  lemma PoppedKeepsPlaces(p: Pool, t: nat)
    requires PoolInv(p) && t < |p.threads| && p.threads[t].AllocCas?
    requires p.list != [] && HeadIndex(p.threads[t].observed) == p.list[0] < p.n
    ensures PlaceInv(Popped(p, t, p.threads[t].observed, p.threads[t].next))
  {
    var q := Popped(p, t, p.threads[t].observed, p.threads[t].next);
    forall s | 0 <= s < q.n ensures q.place[s].Listed? <==> s in q.list {
      TailMembers(p.list, s);
    }
    assert p.list[0] in p.list;
  }

  lemma PopKeepsInv(p: Pool, t: nat)
    requires PoolInv(p) && t < |p.threads| && p.threads[t].AllocCas? && WithinTagBound(p, t)
    requires p.head == p.threads[t].observed
    ensures PoolInv(Step(p, t, Go(false)))
  {
    PoppedKeepsList(p, t);
    PoppedKeepsPlaces(p, t);
    var q := Popped(p, t, p.threads[t].observed, p.threads[t].next);
    forall u | 0 <= u < |q.threads| ensures ThreadInv(q, q.threads[u]) {
      assert ThreadInv(p, p.threads[u]);
    }
  }

  lemma ChainedCons(next: seq<u32>, list: seq<nat>, slot: nat)
    requires Chained(next, list) && slot < |next| && slot !in list && next[slot] == Nth(list, 0)
    ensures Chained(next, [slot] + list)
  {
  }

  /** A slot about to be pushed is off the list and already links to its head. */
  lemma PushIsLinked(p: Pool, t: nat)
    requires PoolInv(p) && t < |p.threads| && p.threads[t].PushCas? && p.head == p.threads[t].observed
    ensures p.threads[t].slot < p.n && p.threads[t].slot !in p.list
    ensures p.next[p.threads[t].slot] == Nth(p.list, 0)
  {
  }

  lemma PushedHead(list: seq<nat>, slot: nat, updates: nat)
    requires slot < FREE_LIST_EMPTY
    ensures PackHead(slot, (HeadTag(PackHead(Nth(list, 0), updates % TAGS)) + 1) % TAGS)
         == PackHead(Nth([slot] + list, 0), (updates + 1) % TAGS)
  {
    TagAdvances(slot, Nth(list, 0), updates);
    assert ([slot] + list)[0] == slot;
  }

  lemma PushedKeepsList(p: Pool, t: nat)
    requires PoolInv(p) && t < |p.threads| && p.threads[t].PushCas? && p.head == p.threads[t].observed
    ensures p.threads[t].slot < p.n && p.threads[t].slot !in p.list
    ensures ListInv(Pushed(p, t, p.threads[t].slot, p.threads[t].observed))
  {
    PushIsLinked(p, t);
    PushedHead(p.list, p.threads[t].slot, p.updates);
    ChainedCons(p.next, p.list, p.threads[t].slot);
  }

  lemma PushedKeepsPlaces(p: Pool, t: nat)
    requires PoolInv(p) && t < |p.threads| && p.threads[t].PushCas? && p.threads[t].slot < p.n
    ensures PlaceInv(Pushed(p, t, p.threads[t].slot, p.threads[t].observed))
  {
  }

  lemma PushKeepsInv(p: Pool, t: nat)
    requires PoolInv(p) && t < |p.threads| && p.threads[t].PushCas? && p.head == p.threads[t].observed
    ensures PoolInv(Step(p, t, Go(false)))
  {
    PushedKeepsList(p, t);
    PushedKeepsPlaces(p, t);
    var q := Pushed(p, t, p.threads[t].slot, p.threads[t].observed);
    forall u | 0 <= u < |q.threads| ensures ThreadInv(q, q.threads[u]) {
      assert ThreadInv(p, p.threads[u]);
    }
  }

  lemma ChainedUpdate(next: seq<u32>, list: seq<nat>, slot: nat, link: u32)
    requires Chained(next, list) && slot < |next| && slot !in list
    ensures Chained(next[slot := link], list)
  {
  }

  /** Another thread never relies on the link of a slot in this thread's hand. */
  lemma LinkKeepsThread(p: Pool, t: nat, u: nat, link: u32)
    requires PoolInv(p) && t < |p.threads| && u < |p.threads| && u != t && InHand(p.threads[t])
    ensures p.threads[t].slot < p.n && ThreadInv(p.(next := p.next[p.threads[t].slot := link]), p.threads[u])
  {
    assert ThreadInv(p, p.threads[u]);
    if p.threads[u].AllocCas? && p.threads[u].seen == p.updates {
      PackRoundTrip(Nth(p.list, 0), p.updates % TAGS);
      assert p.list != [] && p.list[0] in p.list;
    }
  }

  /** Writing the link of a slot in hand disturbs neither the list nor what other threads rely on. */
  lemma LinkKeepsInv(p: Pool, t: nat)
    requires PoolInv(p) && t < |p.threads| && p.threads[t].PushStore?
    ensures PoolInv(Step(p, t, Go(false))) && Step(p, t, Go(true)) == Step(p, t, Go(false))
  {
    var (slot, link) := (p.threads[t].slot, HeadIndex(p.threads[t].observed));
    assert ThreadInv(p, p.threads[t]) && InHand(p.threads[t]);
    var q := Step(p, t, Go(false));
    ChainedUpdate(p.next, p.list, slot, link);
    forall u | 0 <= u < |q.threads| ensures ThreadInv(q, q.threads[u]) {
      if u != t {
        LinkKeepsThread(p, t, u, link);
      }
    }
  }

  lemma ClaimKeepsInv(p: Pool, t: nat)
    requires PoolInv(p) && t < |p.threads| && p.threads[t].ClaimCas?
    ensures p.threads[t].slot < p.n && p.own[p.threads[t].slot] == p.threads[t].state
    ensures PoolInv(Claimed(p, t, p.threads[t].slot, p.threads[t].state))
  {
  }

  lemma ReleaseKeepsInv(p: Pool, t: nat)
    requires PoolInv(p) && t < |p.threads| && p.threads[t].FreeCas? && p.threads[t].slot < p.n
    requires p.threads[t].generation < ALLOCATED_BIT
             && p.own[p.threads[t].slot] == ALLOCATED_BIT + p.threads[t].generation
    ensures PoolInv(Released(p, t, p.threads[t].slot, p.threads[t].generation))
  {
  }

  /** Steps that move one thread on without touching head, links, ownership or places. */
  lemma LocalKeepsInv(p: Pool, t: nat, pc: Pc, mem: seq<seq<bv8>>, log: seq<Out>)
    requires PoolInv(p) && t < |p.threads| && |mem| == p.n
    requires InHand(p.threads[t]) == InHand(pc) && (InHand(pc) ==> pc.slot == p.threads[t].slot)
    requires ThreadInv(p, pc)
    ensures PoolInv(p.(threads := p.threads[t := pc], mem := mem, log := log))
  {
  }

  /** The step succeeds at a compare-exchange or writes a link; every other step is local. */
  predicate IsLocal(p: Pool, t: nat, a: Action)
    requires t < |p.threads|
  {
    match p.threads[t]
    case AllocCas(observed, _, _) => a != Go(false) || p.head != observed
    case PushCas(_, observed) => a != Go(false) || p.head != observed
    case PushStore(_, _) => !a.Go?
    case ClaimCas(_, _) => !a.Go?
    case FreeCas(slot, generation) => !a.Go? || slot >= |p.own| || p.own[slot] != ALLOCATED_BIT + generation
    case _ => true
  }

  ghost predicate MovesOn(p: Pool, q: Pool, t: nat)
    requires WellSized(p) && t < |p.threads|
  {
    && |q.threads| == |p.threads| && |q.mem| == p.n
    && q == p.(threads := p.threads[t := q.threads[t]], mem := q.mem, log := q.log)
    && InHand(p.threads[t]) == InHand(q.threads[t])
    && (InHand(q.threads[t]) ==> q.threads[t].slot == p.threads[t].slot) && ThreadInv(p, q.threads[t])
  }

  lemma LocalAllocStep(p: Pool, t: nat, a: Action)
    requires PoolInv(p) && t < |p.threads| && IsLocal(p, t, a)
    requires p.threads[t].AllocLoad? || p.threads[t].AllocNext? || p.threads[t].AllocCas? || p.threads[t].Claim?
    ensures MovesOn(p, Step(p, t, a), t)
  {
    assert ThreadInv(p, p.threads[t]);
    PackRoundTrip(Nth(p.list, 0), p.updates % TAGS);
    assert p.list != [] ==> p.list[0] < p.n;
  }

  lemma LocalFreeStep(p: Pool, t: nat, a: Action)
    requires PoolInv(p) && t < |p.threads| && IsLocal(p, t, a)
    requires !(p.threads[t].AllocLoad? || p.threads[t].AllocNext? || p.threads[t].AllocCas? || p.threads[t].Claim?)
    ensures MovesOn(p, Step(p, t, a), t)
  {
    assert ThreadInv(p, p.threads[t]);
    PackRoundTrip(Nth(p.list, 0), p.updates % TAGS);
    assert p.list != [] ==> p.list[0] < p.n;
  }

  lemma LocalStep(p: Pool, t: nat, a: Action)
    requires PoolInv(p) && t < |p.threads| && IsLocal(p, t, a)
    ensures MovesOn(p, Step(p, t, a), t)
  {
    if p.threads[t].AllocLoad? || p.threads[t].AllocNext? || p.threads[t].AllocCas? || p.threads[t].Claim? {
      LocalAllocStep(p, t, a);
    } else {
      LocalFreeStep(p, t, a);
    }
  }

  lemma StepKeepsInv(p: Pool, t: nat, a: Action)
    requires PoolInv(p) && WithinTagBound(p, t)
    ensures PoolInv(Step(p, t, a))
  {
    if t < |p.threads| {
      var pc, q := p.threads[t], Step(p, t, a);
      assert ThreadInv(p, pc);
      if IsLocal(p, t, a) {
        LocalStep(p, t, a);
        LocalKeepsInv(p, t, q.threads[t], q.mem, q.log);
      } else if pc.AllocCas? {
        PopKeepsInv(p, t);
      } else if pc.PushCas? {
        PushKeepsInv(p, t);
      } else if pc.PushStore? {
        LinkKeepsInv(p, t);
      } else if pc.ClaimCas? {
        ClaimKeepsInv(p, t);
      } else {
        ReleaseKeepsInv(p, t);
      }
    }
  }
}
