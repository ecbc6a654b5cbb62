/**
 The clearing loop of `free`: a byte prefix up to an aligned address, whole words, trailing bytes.
 */
module DmaWipe {

  /** One volatile store of zeros: where, and how many bytes. */
  datatype Store = Store(address: nat, width: nat)

  /** The stores follow one another without gap or overlap from `from` to `to`. */
  ghost predicate Tiles(stores: seq<Store>, from: nat, to: nat) {
    if stores == [] then from == to
    else stores[0].address == from && Tiles(stores[1..], from + stores[0].width, to)
  }

  lemma {:induction false} TilesAppend(stores: seq<Store>, from: nat, to: nat, width: nat)
    requires Tiles(stores, from, to)
    ensures Tiles(stores + [Store(to, width)], from, to + width)
    decreases |stores|
  {
    if stores == [] {
      assert (stores + [Store(to, width)])[1..] == [];
    } else {
      assert (stores + [Store(to, width)])[1..] == stores[1..] + [Store(to, width)];
      TilesAppend(stores[1..], from + stores[0].width, to, width);
    }
  }

  /** Word stores are aligned; every store stays inside the slot. */
  ghost predicate Sound(stores: seq<Store>, from: nat, to: nat) {
    forall k :: 0 <= k < |stores| ==>
      && from <= stores[k].address && stores[k].address + stores[k].width <= to
      && (stores[k].width == 1 || (stores[k].width == 8 && stores[k].address % 8 == 0))
  }

  function ByteStores(stores: seq<Store>): nat {
    if stores == [] then 0 else ByteStores(stores[..|stores| - 1]) + if stores[|stores| - 1].width == 1 then 1 else 0
  }

  /** The stores made so far: from `from` up to `to`, inside a slot ending at `end`, `bytes` of them single bytes. */
  ghost predicate Logged(stores: seq<Store>, from: nat, to: nat, end: nat, bytes: nat) {
    Tiles(stores, from, to) && Sound(stores, from, end) && ByteStores(stores) <= bytes
  }

  lemma LogAppend(stores: seq<Store>, from: nat, to: nat, end: nat, bytes: nat, width: nat)
    requires Logged(stores, from, to, end, bytes) && from <= to && to + width <= end
    requires width == 1 || (width == 8 && to % 8 == 0)
    ensures Logged(stores + [Store(to, width)], from, to + width, end, bytes + if width == 1 then 1 else 0)
  {
    TilesAppend(stores, from, to, width);
    assert (stores + [Store(to, width)])[..|stores|] == stores;
  }

  /** The first `done` bytes of the slot are clear and nothing else has changed. */
  twostate predicate Cleared(memory: array<bv8>, start: nat, done: nat)
    reads memory
  {
    forall k :: 0 <= k < memory.Length ==> memory[k] == if start <= k < start + done then 0 else old(memory[k])
  }

  method ClearWord(memory: array<bv8>, at: nat)
    requires at + 8 <= memory.Length
    modifies memory
    ensures Cleared(memory, at, 8)
  {
    memory[at], memory[at + 1], memory[at + 2], memory[at + 3] := 0, 0, 0, 0;
    memory[at + 4], memory[at + 5], memory[at + 6], memory[at + 7] := 0, 0, 0, 0;
  }

  /** Byte stores from `offset` up to `stop`. */
  method ClearBytes(memory: array<bv8>, pointer: nat, start: nat, offset: nat, stop: nat, ghost before: seq<Store>,
                    ghost end: nat, ghost bytes: nat) returns (ghost stores: seq<Store>)
    requires offset <= stop && start + stop <= memory.Length && pointer + stop <= end
    requires Logged(before, pointer, pointer + offset, end, bytes)
    modifies memory
    ensures Cleared(memory, start + offset, stop - offset)
    ensures Logged(stores, pointer, pointer + stop, end, bytes + stop - offset)
  {
    stores := before;
    for k := offset to stop
      invariant Cleared(memory, start + offset, k - offset)
      invariant Logged(stores, pointer, pointer + k, end, bytes + k - offset)
    {
      LogAppend(stores, pointer, pointer + k, end, bytes + k - offset, 1);
      memory[start + k] := 0;
      stores := stores + [Store(pointer + k, 1)];
    }
  }

  /** Word stores from the aligned `offset` while a whole word is left before `length`. */
  method ClearWords(memory: array<bv8>, pointer: nat, start: nat, offset: nat, length: nat, ghost before: seq<Store>,
                    ghost bytes: nat) returns (stop: nat, ghost stores: seq<Store>)
    requires offset <= length && start + length <= memory.Length
    requires offset < length ==> (pointer + offset) % 8 == 0
    requires Logged(before, pointer, pointer + offset, pointer + length, bytes)
    modifies memory
    ensures offset <= stop <= length < stop + 8
    ensures Cleared(memory, start + offset, stop - offset)
    ensures Logged(stores, pointer, pointer + stop, pointer + length, bytes)
  {
    stores := before;
    stop := offset;
    while stop + 8 <= length
      invariant offset <= stop <= length && (stop < length ==> (pointer + stop) % 8 == 0)
      invariant Cleared(memory, start + offset, stop - offset)
      invariant Logged(stores, pointer, pointer + stop, pointer + length, bytes)
    {
      LogAppend(stores, pointer, pointer + stop, pointer + length, bytes, 8);
      ClearWord(memory, start + stop);
      stores := stores + [Store(pointer + stop, 8)];
      stop := stop + 8;
    }
  }

  /** How many bytes precede the first word-aligned address at or after `pointer`. */
  function Misalignment(pointer: nat): nat { (8 - pointer % 8) % 8 }

  lemma MisalignmentIsFirst(pointer: nat, k: nat)
    requires k <= Misalignment(pointer)
    ensures (pointer + k) % 8 == 0 <==> k == Misalignment(pointer)
  {
  }

  method AlignedPrefix(pointer: nat, length: nat) returns (offset: nat)
    ensures offset == if Misalignment(pointer) < length then Misalignment(pointer) else length
    ensures offset < length ==> (pointer + offset) % 8 == 0
  {
    offset := 0;
    MisalignmentIsFirst(pointer, 0);
    while offset < length && (pointer + offset) % 8 != 0
      invariant offset <= length && offset <= Misalignment(pointer)
      invariant (pointer + offset) % 8 == 0 <==> offset == Misalignment(pointer)
    {
      offset := offset + 1;
      MisalignmentIsFirst(pointer, offset);
    }
  }

  /**
   Clears the slot at `start` of `memory`, whose first byte is at address `origin`: exactly its bytes, with
   aligned in-bounds word stores and at most 14 single-byte stores.
   */
  method Wipe(memory: array<bv8>, origin: nat, start: nat, length: nat) returns (ghost stores: seq<Store>)
    requires start + length <= memory.Length
    modifies memory
    ensures Cleared(memory, start, length)
    ensures Logged(stores, origin + start, origin + start + length, origin + start + length, 14)
  {
    var pointer := origin + start;
    var prefix := AlignedPrefix(pointer, length);
    stores := ClearBytes(memory, pointer, start, 0, prefix, [], pointer + length, 0);
    var words;
    words, stores := ClearWords(memory, pointer, start, prefix, length, stores, prefix);
    stores := ClearBytes(memory, pointer, start, words, length, stores, pointer + length, prefix);
  }
}
