/**
 The ring buffer as the object it is, with calls that do not overlap: slots, sequence counters and
 indices updated in place, proved against the sequence of items it holds.
 */
module RingBuffers {
  import opened Words
  import opened Wrappers
  import opened WrappingQueue
  import opened SpscQueue
  import opened SpscCalls

  datatype IpcError = NotInitialized | AlreadyInitialized | QueueFull | InvalidMemory

  datatype Result = Ok | Err(error: IpcError)

  /** A page-aligned region at `base` that holds `n` slots of the given layout. */
  predicate ValidMemory(base: nat, bytes: nat, n: nat, slotSize: nat, slotAlign: nat)
    requires slotAlign > 0
  {
    base != 0 && n * slotSize < WORDS && bytes >= n * slotSize && base % 4096 == 0 && base % slotAlign == 0
  }

  /** The queue after an item has been stored and published. */
  function WithItem<T>(q: Queue<T>, item: T): Queue<T>
    requires Sized(q)
  {
    Queue(q.n, (q.head + 1) % WORDS, q.tail, q.cells[q.head % q.n := Val(item)], q.pushed + [item], q.popped)
  }

  lemma WrittenInv<T>(q: Queue<T>, item: T)
    requires QueueInv(q, PIdle, CIdle) && |q.pushed| < |q.popped| + q.n
    ensures Sized(q) && QueueInv(q.(cells := q.cells[q.head % q.n := Val(item)]), PPublish(item, q.head), CIdle)
  {
    CountsSized(q);
    WriteKeepsInv(q, PWrite(item, q.head), CIdle);
  }

  lemma WithItemInv<T>(q: Queue<T>, item: T)
    requires QueueInv(q, PIdle, CIdle) && |q.pushed| < |q.popped| + q.n
    ensures Sized(q) && QueueInv(WithItem(q, item), PIdle, CIdle)
  {
    WrittenInv(q, item);
    var written := q.(cells := q.cells[q.head % q.n := Val(item)]);
    PublishKeepsInv(written, PPublish(item, q.head), CIdle);
    assert WithItem(q, item) == ProducerStep(written, PPublish(item, q.head)).0;
  }

  /** The queue after its oldest item has been read and its slot blanked. */
  function WithoutItem<T>(q: Queue<T>, item: T, blank: T): Queue<T>
    requires Sized(q)
  {
    Queue(q.n, q.head, (q.tail + 1) % WORDS, q.cells[q.tail % q.n := Val(blank)], q.pushed, q.popped + [item])
  }

  lemma WithoutItemInv<T>(q: Queue<T>, blank: T)
    requires QueueInv(q, PIdle, CIdle) && |q.popped| < |q.pushed|
    ensures Sized(q) && q.cells[q.tail % q.n] == Val(q.pushed[|q.popped|])
    ensures QueueInv(WithoutItem(q, q.pushed[|q.popped|], blank), PIdle, CIdle)
  {
    CountsSized(q);
    var item := q.pushed[|q.popped|];
    assert StoredAt(q, |q.popped|);
    ClearKeepsInv(q, PIdle, CClear(q.tail, item), Val(blank));
    ConsumerKeepsInv(q.(cells := q.cells[q.tail % q.n := Val(blank)]), PIdle, CRelease(q.tail, item));
  }

  /** Each slot's counter is twice the number of pushes to it. */
  predicate Counted(counters: seq<nat>, pushes: nat) {
    forall i :: 0 <= i < |counters| ==> counters[i] == Word(2 * Visits(pushes, |counters|, i))
  }

  lemma PushIsCounted(counters: seq<nat>, pushes: nat, at: nat)
    requires Counted(counters, pushes) && at < |counters| && at == pushes % |counters|
    ensures Counted(counters[at := AndNotOne((counters[at] + 2) % WORDS)], pushes + 1)
    ensures counters[at] % 2 == 0
  {
    StampStores(Visits(pushes, |counters|, at));
    EvenWord(Visits(pushes, |counters|, at));
  }

  lemma EvenCounter(counters: seq<nat>, pushes: nat, at: nat)
    requires Counted(counters, pushes) && at < |counters|
    ensures counters[at] % 2 == 0
  {
    EvenWord(Visits(pushes, |counters|, at));
  }

  class RingBuffer<T> {
    const cells: array<Cell<T>>
    const counters: array<nat>
    const blank: T
    const slotSize: nat
    const slotAlign: nat
    var isInitialized: bool
    var head: nat
    var tail: nat
    ghost var pushed: seq<T>
    ghost var popped: seq<T>

    ghost function View(): Queue<T>
      reads this, cells
    {
      Queue(cells.Length, head, tail, cells[..], pushed, popped)
    }

    ghost predicate Valid()
      reads this, cells, counters
    {
      && counters.Length == cells.Length && slotAlign > 0 && QueueInv(View(), PIdle, CIdle)
      && (!isInitialized ==> pushed == [])
      && (isInitialized ==> Counted(counters[..], |pushed|))
    }

    /** The items pushed and not yet popped, oldest first. */
    ghost function Contents(): seq<T>
      requires Valid()
      reads this, cells, counters
    {
      pushed[|popped|..]
    }

    /** Storage of any content; the capacity is a power of two. */
    constructor (storage: array<Cell<T>>, sequences: array<nat>, default: T, slotSize: nat, slotAlign: nat)
      requires Capacity(storage.Length) && sequences.Length == storage.Length && slotAlign > 0
      ensures Valid() && !isInitialized && Contents() == []
      ensures cells == storage && counters == sequences && blank == default
      ensures this.slotSize == slotSize && this.slotAlign == slotAlign
    {
      cells, counters, blank := storage, sequences, default;
      this.slotSize, this.slotAlign := slotSize, slotAlign;
      isInitialized, head, tail, pushed, popped := false, 0, 0, [], [];
    }

    /**
     Given memory that fits, clears every slot's counter and makes the buffer ready, once; a refusal changes
     nothing.
     */
    method Init(base: nat, bytes: nat) returns (r: Result)
      requires Valid()
      modifies this`isInitialized, counters
      ensures Valid() && Contents() == old(Contents())
      ensures r == if !ValidMemory(base, bytes, cells.Length, slotSize, slotAlign) then Err(InvalidMemory)
                   else if old(isInitialized) then Err(AlreadyInitialized) else Ok
      ensures isInitialized == (old(isInitialized) || r.Ok?)
      ensures if r.Ok? then forall i :: 0 <= i < counters.Length ==>
                counters[i] == 0 else counters[..] == old(counters[..])
    {
      if base == 0 {
        return Err(InvalidMemory);
      }
      var required := cells.Length * slotSize;
      if required >= WORDS || bytes < required {
        return Err(InvalidMemory);
      }
      if base % 4096 != 0 || base % slotAlign != 0 {
        return Err(InvalidMemory);
      }
      if isInitialized {
        return Err(AlreadyInitialized);
      }
      for index := 0 to counters.Length
        invariant Valid() && !isInitialized
        invariant forall i :: 0 <= i < index ==> counters[i] == 0
      {
        counters[index] := 0;
      }
      isInitialized := true;
      r := Ok;
    }

    method Push(item: T) returns (r: Result)
      requires Valid()
      modifies this`head, this`pushed, cells, counters
      ensures Valid() && Contents() == old(Contents()) + if r.Ok? then [item] else []
      ensures r == if !isInitialized then Err(NotInitialized)
                   else if |old(Contents())| == cells.Length then Err(QueueFull) else Ok
      ensures !r.Ok? ==> head == old(head) && cells[..] == old(cells[..]) && counters[..] == old(counters[..])
    {
      if !isInitialized {
        return Err(NotInitialized);
      }
      ghost var q := View();
      FullAndEmptyAreExact(q, PLoadTail(item, head), CIdle);
      if WrappingSub(head, tail) >= cells.Length {
        return Err(QueueFull);
      }
      WithItemInv(q, item);
      var at := head % cells.Length;
      CountsSized(q);
      PushIsCounted(counters[..], |pushed|, at);
      ghost var counted := counters[..];
      var sequence := counters[at];
      counters[at] := OrOne((sequence + 1) % WORDS);
      cells[at] := Val(item);
      counters[at] := AndNotOne((sequence + 2) % WORDS);
      assert counters[..] == counted[at := AndNotOne((counted[at] + 2) % WORDS)];
      head := (head + 1) % WORDS;
      pushed := pushed + [item];
      assert View() == WithItem(q, item);
      r := Ok;
    }

    method Pop() returns (r: Option<T>)
      requires Valid()
      modifies this`tail, this`popped, cells
      ensures Valid()
      ensures r.None? <==> !isInitialized || old(Contents()) == []
      ensures if r.Some? then old(Contents()) == [r.value] + Contents() && cells[old(tail) % cells.Length] == Val(blank)
              else Contents() == old(Contents()) && cells[..] == old(cells[..])
    {
      if !isInitialized {
        return None;
      }
      ghost var q := View();
      FullAndEmptyAreExact(q, PIdle, CLoadHead(tail));
      if head == tail {
        return None;
      }
      WithoutItemInv(q, blank);
      var at := tail % cells.Length;
      EvenCounter(counters[..], |pushed|, at);
      var first := counters[at];
      if first % 2 != 0 {
        return None;
      }
      var item := cells[at].item;
      var second := counters[at];
      if first != second || second % 2 != 0 {
        return None;
      }
      cells[at] := Zeroed;
      cells[at] := Val(blank);
      tail := (tail + 1) % WORDS;
      popped := popped + [item];
      assert View() == WithoutItem(q, item, blank);
      r := Some(item);
    }

    /** The item the next pop returns, left where it is. */
    method Peek() returns (r: Option<T>)
      requires Valid()
      ensures r == if !isInitialized || Contents() == [] then None else Some(Contents()[0])
    {
      if !isInitialized {
        return None;
      }
      FullAndEmptyAreExact(View(), PIdle, CLoadHead(tail));
      if head == tail {
        return None;
      }
      ConsumerKeepsInv(View(), PIdle, CRead(tail));
      var at := tail % cells.Length;
      EvenCounter(counters[..], |pushed|, at);
      var first := counters[at];
      if first % 2 != 0 {
        return None;
      }
      var item := cells[at].item;
      var second := counters[at];
      if first != second || second % 2 != 0 {
        return None;
      }
      r := Some(item);
    }
  }
}
