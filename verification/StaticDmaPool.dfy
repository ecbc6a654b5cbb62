/**
 The DMA pool as the object it is, with calls that do not overlap: head, links, ownership words and
 slot bytes updated in place, proved against the list of free slots.
 */
module StaticDmaPools {
  import opened Words
  import opened DmaPool
  import opened DmaTokens
  import DmaWipe

  datatype Token = Token(slot: nat, generation: u64)

  datatype AllocatorError =
    | ErrOutOfMemory
    | ErrAddressOutOfBounds
    | ErrInvalidAlignment
    | ErrDoubleFree
    | ErrNotInitialized
    | ErrAlreadyInitialized

  datatype AllocResult = Allocated(token: Token) | AllocErr(error: AllocatorError)

  datatype FreeResult = Freed | FreeErr(error: AllocatorError)

  datatype InitResult = Ready | InitErr(error: AllocatorError)

  /** The slots of a pool: how many, how large and how aligned, and how many bitmap words its type declares. */
  datatype Layout = Layout(n: nat, size: nat, align: nat, bitmapWords: nat)

  /** What `init` answers on memory at `base`, from its arguments alone: none when it accepts them. */
  function Refusal(l: Layout, base: nat, bytes: nat): (r: InitResult)
    requires l.align > 0
    ensures r.Ready? <==> && l.size > 0 && base > 0 && l.n * l.size <= bytes && l.n * l.size < WORDS
                          && base + l.n * l.size < WORDS && base % 4096 == 0 && base % l.align == 0
                          && l.bitmapWords == (l.n + 63) / 64
    ensures r == InitErr(ErrInvalidAlignment) <==>
              && l.size > 0 && base > 0 && l.n * l.size <= bytes && l.n * l.size < WORDS
              && base + l.n * l.size < WORDS && (base % 4096 != 0 || base % l.align != 0)
    ensures r.Ready? || r == InitErr(ErrInvalidAlignment) || r == InitErr(ErrAddressOutOfBounds)
  {
    if l.size == 0 || base == 0 || l.n * l.size >= WORDS then InitErr(ErrAddressOutOfBounds)
    else if bytes < l.n * l.size || base + l.n * l.size >= WORDS then InitErr(ErrAddressOutOfBounds)
    else if base % 4096 != 0 || base % l.align != 0 then InitErr(ErrInvalidAlignment)
    else if l.bitmapWords != (l.n + 63) / 64 then InitErr(ErrAddressOutOfBounds)
    else Ready
  }

  /** The links and the head name exactly `list`, and a slot is on it exactly when its word is not marked allocated. */
  ghost predicate FreeList(head: u64, next: seq<u32>, own: seq<u64>, list: seq<nat>) {
    0 < |own| == |next| && Chained(next, list) && HeadIndex(head) == Nth(list, 0) && ListedIffFree(own, list)
  }

  ghost predicate ListedIffFree(own: seq<u64>, list: seq<nat>) {
    forall s :: 0 <= s < |own| ==> (s in list <==> own[s] < ALLOCATED_BIT)
  }

  lemma HeadNamesFirst(head: u64, next: seq<u32>, list: seq<nat>)
    requires Chained(next, list) && HeadIndex(head) == Nth(list, 0)
    ensures list == [] <==> HeadIndex(head) == FREE_LIST_EMPTY
    ensures list != [] ==> HeadIndex(head) == list[0] < |next|
  {
  }

  lemma TakenKeepsList(head: u64, head': u64, next: seq<u32>, own: seq<u64>, list: seq<nat>, word: u64)
    requires FreeList(head, next, own, list) && list != [] && word >= ALLOCATED_BIT
    requires HeadIndex(head) < |next| && HeadIndex(head') == next[HeadIndex(head)]
    ensures list[0] < |own| && FreeList(head', next, own[list[0] := word], list[1..]) && list == [list[0]] + list[1..]
  {
    HeadNamesFirst(head, next, list);
    ChainedTail(next, list);
    forall s | 0 <= s < |own| ensures s in list[1..] <==> own[list[0] := word][s] < ALLOCATED_BIT {
      TailMembers(list, s);
    }
  }

  lemma ReturnedKeepsList(head: u64, head': u64, next: seq<u32>, own: seq<u64>, list: seq<nat>, slot: nat, word: u64)
    requires FreeList(head, next, own, list) && slot < |own| && own[slot] >= ALLOCATED_BIT && word < ALLOCATED_BIT
    requires HeadIndex(head') == slot
    ensures FreeList(head', next[slot := HeadIndex(head)], own[slot := word], [slot] + list)
  {
  }

  lemma WholeList(next: seq<u32>, own: seq<u64>, list: seq<nat>)
    requires 0 < |list| == |next| == |own| <= FREE_LIST_EMPTY
    requires forall i :: 0 <= i < |list| ==> list[i] == i && own[i] == 0
    requires forall k :: 0 <= k < |next| ==> next[k] == if k < |next| - 1 then k + 1 else FREE_LIST_EMPTY
    ensures FreeList(PackHead(0, 0), next, own, list)
  {
  }

  class StaticDmaPool {
    const next: array<u32>
    const own: array<u64>
    const slots: seq<array<bv8>>
    const layout: Layout
    var head: u64
    var isInitialized: bool
    ghost var list: seq<nat>

    ghost function Bytes(): seq<seq<bv8>>
      reads slots
    {
      seq(|slots|, i requires 0 <= i < |slots| reads slots => slots[i][..])
    }

    ghost predicate Valid()
      reads this, next, own
    {
      && next as object != own && 0 < |slots| == own.Length == next.Length <= FREE_LIST_EMPTY
      && layout.n == |slots| && layout.align > 0
      && (forall i :: 0 <= i < |slots| ==> slots[i] as object != next && slots[i] as object != own)
      && (forall i, j :: 0 <= i < j < |slots| ==> slots[i] != slots[j])
      && (isInitialized ==> FreeList(head, next[..], own[..], list))
      && (!isInitialized ==> list == [])
    }

    /** Storage of any content, one array per slot, in a pool that is not ready yet. */
    constructor (storage: seq<array<bv8>>, layout: Layout)
      requires 0 < |storage| <= FREE_LIST_EMPTY && layout.n == |storage| && layout.align > 0
      requires forall i, j :: 0 <= i < j < |storage| ==> storage[i] != storage[j]
      ensures Valid() && slots == storage && this.layout == layout && fresh(next) && fresh(own) && !isInitialized
    {
      next := new u32[|storage|](_ => FREE_LIST_EMPTY);
      own := new u64[|storage|](_ => 0);
      slots := storage;
      this.layout := layout;
      head, isInitialized, list := PackHead(0, 0), false, [];
    }

    /** Given memory that fits, links every slot in order and makes the pool ready, once; a refusal changes nothing. */
    method Init(base: nat, bytes: nat) returns (r: InitResult)
      requires Valid()
      modifies this, next, own
      ensures Valid() && isInitialized == (old(isInitialized) || r.Ready?)
      ensures r == if Refusal(layout, base, bytes).Ready? && old(isInitialized) then InitErr(ErrAlreadyInitialized)
                   else Refusal(layout, base, bytes)
      ensures r.Ready? ==> |list| == |slots| && forall i :: 0 <= i < |list| ==> list[i] == i && own[i] == 0
      ensures r.InitErr? ==> head == old(head) && list == old(list)
      ensures r.InitErr? ==> next[..] == old(next[..]) && own[..] == old(own[..])
    {
      r := Refusal(layout, base, bytes);
      if r.InitErr? {
        return;
      }
      if isInitialized {
        return InitErr(ErrAlreadyInitialized);
      }
      BuildFreeList(next, own);
      assert next[..] == Fresh(Bytes(), 1).next && own[..] == Fresh(Bytes(), 1).own;
      head := PackHead(0, 0);
      list := seq(|slots|, i => if i < 0 then 0 else i);
      isInitialized := true;
      WholeList(next[..], own[..], list);
    }

    /** Takes the slot at the head of the free list and issues the token of its next generation. */
    method Allocate() returns (r: AllocResult)
      requires Valid()
      modifies this, own
      ensures Valid() && isInitialized == old(isInitialized)
      ensures !isInitialized <==> r == AllocErr(ErrNotInitialized)
      ensures isInitialized && old(list) == [] <==> r == AllocErr(ErrOutOfMemory)
      ensures r.AllocErr? ==> head == old(head) && list == old(list) && own[..] == old(own[..])
      ensures r.Allocated? ==>
                && old(list) == [r.token.slot] + list && r.token.slot < own.Length
                && r.token.generation == NextGeneration(old(own[..])[r.token.slot])
                && own[..] == old(own[..])[r.token.slot := ALLOCATED_BIT + r.token.generation]
    {
      if !isInitialized {
        return AllocErr(ErrNotInitialized);
      }
      HeadNamesFirst(head, next[..], list);
      var slot := HeadIndex(head);
      if slot == FREE_LIST_EMPTY {
        return AllocErr(ErrOutOfMemory);
      }
      assert list != [];
      var generation := NextGeneration(own[slot]);
      Unlink(slot, ALLOCATED_BIT + generation);
      r := Allocated(Token(slot, generation));
    }

    /** The two stores of a successful allocation: the head moves to the next slot, the word is marked. */
    method Unlink(slot: nat, word: u64)
      requires Valid() && isInitialized && list != [] && slot == HeadIndex(head) < next.Length && word >= ALLOCATED_BIT
      modifies this, own
      ensures Valid() && isInitialized && old(list) == [slot] + list && own[..] == old(own[..])[slot := word]
    {
      var tag := (HeadTag(head) + 1) % TAGS;
      PackRoundTrip(next[slot], tag);
      HeadNamesFirst(head, next[..], list);
      TakenKeepsList(head, PackHead(next[slot], tag), next[..], own[..], list, word);
      ghost var words := own[..];
      head := PackHead(next[slot], tag);
      own[slot] := word;
      list := list[1..];
      assert own[..] == words[slot := word];
    }

    /**
     Takes back a live token: wipes its slot and puts it at the head of the free list. Any other token changes
     nothing.
     */
    method Free(slot: nat, generation: u64, origin: nat) returns (r: FreeResult)
      requires Valid()
      modifies this, next, own, slots
      ensures Valid() && isInitialized == old(isInitialized)
      ensures r == if !isInitialized then FreeErr(ErrNotInitialized)
                   else if slot >= own.Length then FreeErr(ErrAddressOutOfBounds)
                   else if generation < ALLOCATED_BIT && old(own[..])[slot] == ALLOCATED_BIT + generation then Freed
                   else FreeErr(ErrDoubleFree)
      ensures r.FreeErr? ==> head == old(head) && list == old(list)
      ensures r.FreeErr? ==> own[..] == old(own[..]) && Bytes() == old(Bytes())
      ensures r.Freed? ==>
                && list == [slot] + old(list) && own[..] == old(own[..])[slot := generation]
                && |old(Bytes())| == |slots| && Bytes() == old(Bytes())[slot := Zeroed(slots[slot].Length)]
    {
      if !isInitialized {
        return FreeErr(ErrNotInitialized);
      }
      if slot >= own.Length {
        return FreeErr(ErrAddressOutOfBounds);
      }
      if generation >= ALLOCATED_BIT || own[slot] != ALLOCATED_BIT + generation {
        return FreeErr(ErrDoubleFree);
      }
      own[slot] := generation;
      WipeSlot(slot, origin);
      Relink(slot, ALLOCATED_BIT + generation);
      r := Freed;
    }

    method WipeSlot(slot: nat, origin: nat)
      requires slot < |slots| && forall i, j :: 0 <= i < j < |slots| ==> slots[i] != slots[j]
      modifies slots
      ensures |old(Bytes())| == |slots| && Bytes() == old(Bytes())[slot := Zeroed(slots[slot].Length)]
    {
      ghost var bytes := Bytes();
      ghost var stores := DmaWipe.Wipe(slots[slot], origin, 0, slots[slot].Length);
      assert slots[slot][..] == Zeroed(slots[slot].Length);
      assert Bytes() == bytes[slot := Zeroed(slots[slot].Length)];
    }

    /** The stores that put a released slot back, its link and the head; its word was `before` until the release. */
    method Relink(slot: nat, ghost before: u64)
      requires next as object != own && slot < own.Length && before >= ALLOCATED_BIT && own[slot] < ALLOCATED_BIT
      requires FreeList(head, next[..], own[..][slot := before], list)
      modifies this, next
      ensures FreeList(head, next[..], own[..], list) && list == [slot] + old(list)
              && isInitialized == old(isInitialized)
    {
      var tag := (HeadTag(head) + 1) % TAGS;
      PackRoundTrip(slot, tag);
      ReturnedKeepsList(head, PackHead(slot, tag), next[..], own[..][slot := before], list, slot, own[slot]);
      ghost var links := next[..];
      next[slot] := HeadIndex(head);
      head := PackHead(slot, tag);
      list := [slot] + list;
      assert own[..][slot := before][slot := own[slot]] == own[..] && next[..] == links[slot := next[slot]];
    }
  }
}
