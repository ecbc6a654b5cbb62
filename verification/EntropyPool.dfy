/**
 The entropy pool of one process: mixing, extraction, and what extraction is a stream of.
 */
module EntropyPools {
  import opened Words
  import opened SymbolicCrypto
  import opened Wrappers

  const MAX_MIX_CHUNKS_PER_CALL: nat := 8

  const ENTROPY_CHUNK_SIZE: nat := 32

  type Chunk = c: seq<Byte> | |c| == ENTROPY_CHUNK_SIZE witness Zeros(32)

  // ---- State transitions ----

  /** The pool after mixing `chunks`: one hash over the chunks, one over the pool and that digest. */
  function Mixed(state: seq<Byte>, chunks: seq<Chunk>): seq<Byte> {
    if chunks == [] then state else Hash(state + Hash(Flatten(chunks)))
  }

  function OutBlock(state: seq<Byte>): (r: seq<Byte>) ensures |r| == 48 { Hash([Raw(0)] + state) }

  function NextState(state: seq<Byte>): seq<Byte> { Hash([Raw(1)] + state) }

  /** The next `length` bytes and the state they leave. */
  function Extracted(state: seq<Byte>, length: nat): (seq<Byte>, seq<Byte>)
    decreases length
  {
    if length == 0 then ([], state)
    else if length <= 48 then (OutBlock(state)[..length], NextState(state))
    else
      var (rest, final) := Extracted(NextState(state), length - 48);
      (OutBlock(state) + rest, final)
  }

  function Iterated(state: seq<Byte>, steps: nat): seq<Byte>
    decreases steps
  {
    if steps == 0 then state else Iterated(NextState(state), steps - 1)
  }

  /** The blocks an extraction of `length` bytes starts. */
  function Blocks(length: nat): nat { (length + 47) / 48 }

  /** The state moves one 0x01-step per started block, whatever the output is used for. */
  lemma {:induction false} ExtractionSteps(state: seq<Byte>, length: nat)
    ensures |Extracted(state, length).0| == length
    ensures Extracted(state, length).1 == Iterated(state, Blocks(length))
    decreases length
  {
    if 0 < length <= 48 {
      assert Iterated(state, 1) == Iterated(NextState(state), 0);
    } else if length > 48 {
      ExtractionSteps(NextState(state), length - 48);
    }
  }

  lemma {:induction false} ExtractionResumes(state: seq<Byte>, blocks: nat, length: nat)
    ensures var (first, middle) := Extracted(state, 48 * blocks);
            var (second, final) := Extracted(middle, length);
            Extracted(state, 48 * blocks + length) == (first + second, final)
    decreases blocks
  {
    if blocks == 0 {
      assert [] + Extracted(state, length).0 == Extracted(state, length).0;
    } else if blocks == 1 && length == 0 {
      assert OutBlock(state)[..48] + [] == OutBlock(state)[..48];
    } else {
      ExtractionResumes(NextState(state), blocks - 1, length);
      var (first, middle) := Extracted(NextState(state), 48 * (blocks - 1));
      var (second, final) := Extracted(middle, length);
      assert Extracted(state, 48 * blocks).1 == middle;
      assert Extracted(state, 48 * blocks).0 == OutBlock(state) + first;
      assert OutBlock(state) + (first + second) == (OutBlock(state) + first) + second;
    }
  }

  /** The byte at `at` comes from the block that started before it. */
  lemma {:induction false} ExtractedByte(state: seq<Byte>, length: nat, at: nat)
    requires at < length
    ensures |Extracted(state, length).0| == length
    ensures Extracted(state, length).0[at] == HashByte([Raw(0)] + Iterated(state, at / 48), at % 48)
    decreases length
  {
    ExtractionSteps(state, length);
    if length > 48 && at >= 48 {
      ExtractedByte(NextState(state), length - 48, at - 48);
      assert Extracted(state, length).0[at] == Extracted(NextState(state), length - 48).0[at - 48];
    }
  }

  lemma MisalignedSplitDiffers(state: seq<Byte>, a: nat, b: nat)
    requires a % 48 != 0 && b > 0
    ensures Extracted(state, a + b).0 != Extracted(state, a).0 + Extracted(Extracted(state, a).1, b).0
  {
    ExtractionSteps(state, a);
    ExtractedByte(state, a + b, a);
    ExtractedByte(Extracted(state, a).1, b, 0);
    var joined := Extracted(state, a).0 + Extracted(Extracted(state, a).1, b).0;
    assert joined[a] == Extracted(Extracted(state, a).1, b).0[0];
  }

  /**
   Two extractions give the bytes and the state of one exactly when the first is a whole number of blocks (or
   the second is empty).
   */
  lemma ExtractionIsAStream(state: seq<Byte>, a: nat, b: nat)
    ensures var (first, middle) := Extracted(state, a);
            var (second, final) := Extracted(middle, b);
            Extracted(state, a + b) == (first + second, final) <==> a % 48 == 0 || b == 0
  {
    if a % 48 == 0 {
      ExtractionResumes(state, a / 48, b);
    } else if b == 0 {
      assert Extracted(state, a).0 + [] == Extracted(state, a).0;
    } else {
      MisalignedSplitDiffers(state, a, b);
    }
  }

  // ---- One operation, run alone ----

  datatype Answer = Mixing | Busy | Starved | Filled(bytes: seq<Byte>)

  datatype Pool = Pool(state: seq<Byte>, reseeds: nat)

  /** `reseed_count` is a 64-bit counter that wraps. */
  function NextCount(reseeds: nat): nat { (reseeds + 1) % WORDS }

  function NewPool(): Pool { Pool(Zeros(48), 0) }

  function MixedPool(pool: Pool, chunks: seq<Chunk>): Pool {
    Pool(Mixed(pool.state, chunks), if chunks == [] then pool.reseeds else NextCount(pool.reseeds))
  }

  /** A mix (`want` is none) or an extraction of `want` bytes that took `chunks` from the queue. */
  function Serial(pool: Pool, want: Option<nat>, chunks: seq<Chunk>): (Pool, Answer) {
    var mixed := MixedPool(pool, chunks);
    match want
    case None => (mixed, Mixing)
    case Some(length) =>
      if mixed.reseeds == 0 then (mixed, Starved)
      else
        var (bytes, final) := Extracted(mixed.state, length);
        (Pool(final, mixed.reseeds), Filled(bytes))
  }

  /** Having produced `done` and reached `state`, the rest of the extraction is an extraction from `state`. */
  predicate Resumes(start: seq<Byte>, length: nat, done: seq<Byte>, state: seq<Byte>) {
    && |done| <= length
    && Extracted(start, length).0 == done + Extracted(state, length - |done|).0
    && Extracted(start, length).1 == Extracted(state, length - |done|).1
  }

  lemma BlockResumes(start: seq<Byte>, length: nat, done: seq<Byte>, state: seq<Byte>)
    requires Resumes(start, length, done, state) && |done| < length
    ensures var n := if length - |done| < 48 then length - |done| else 48;
            Resumes(start, length, done + OutBlock(state)[..n], NextState(state))
  {
  }

  method CopyInto(out: array<Byte>, offset: nat, block: seq<Byte>)
    requires offset + |block| <= out.Length
    modifies out
    ensures out[..offset + |block|] == old(out[..offset]) + block
  {
    for i := 0 to |block|
      invariant out[..offset + i] == old(out[..offset]) + block[..i]
    {
      out[offset + i] := block[i];
    }
  }

  /** How many of `queued` chunks one mix takes when the queue's consumer side is free. */
  function Share(queued: nat): nat {
    if queued < MAX_MIX_CHUNKS_PER_CALL then queued else MAX_MIX_CHUNKS_PER_CALL
  }

  /**
   The pool as the object it is. `queue` is what the global queue holds and `gateHeld` what the
   consumer gate's compare-exchange finds; `mixing` is the pool's own gate.
   */
  class EntropyPool {
    var state: seq<Byte>
    var reseedCount: nat
    var mixing: bool

    ghost function View(): Pool
      reads this
    {
      Pool(state, reseedCount)
    }

    constructor ()
      ensures View() == NewPool() && !mixing
    {
      state, reseedCount, mixing := Zeros(48), 0, false;
    }

    /**
     Takes at most eight chunks, in queue order, and mixes them in one transition; none if another mixer has
     the queue.
     */
    method MixEntropyUnderGate(queue: seq<Chunk>, gateHeld: bool) returns (taken: nat)
      modifies this
      ensures taken == if gateHeld then 0 else Share(|queue|)
      ensures View() == MixedPool(old(View()), queue[..taken]) && mixing == old(mixing)
    {
      taken := 0;
      if gateHeld {
        assert queue[..0] == [];
        return;
      }
      var absorbed: seq<Byte> := [];
      while taken < MAX_MIX_CHUNKS_PER_CALL && taken < |queue|
        invariant taken <= MAX_MIX_CHUNKS_PER_CALL && taken <= |queue|
        invariant absorbed == Flatten(queue[..taken]) && View() == old(View()) && mixing == old(mixing)
      {
        FlattenAppend(queue[..taken], queue[taken]);
        assert queue[..taken + 1] == queue[..taken] + [queue[taken]];
        absorbed := absorbed + queue[taken];
        taken := taken + 1;
      }
      assert taken == 0 <==> queue[..taken] == [];
      if taken > 0 {
        state := Hash(state + Hash(absorbed));
        reseedCount := NextCount(reseedCount);
      }
    }

    /** A mix, or nothing at all while another operation is in the pool. */
    method MixEntropy(queue: seq<Chunk>, gateHeld: bool) returns (taken: nat)
      modifies this
      ensures taken == if old(mixing) || gateHeld then 0 else Share(|queue|)
      ensures mixing == old(mixing)
      ensures View() == if old(mixing) then old(View()) else Serial(old(View()), None, queue[..taken]).0
    {
      if mixing {
        return 0;
      }
      mixing := true;
      taken := MixEntropyUnderGate(queue, gateHeld);
      mixing := false;
    }

    /**
     Fills `out` block by block, replacing the state after each block; busy while another operation is in the
     pool.
     */
    method ExtractEntropy(out: array<Byte>, queue: seq<Chunk>, gateHeld: bool) returns (r: Result<()>, taken: nat)
      modifies this, out
      ensures taken == if old(mixing) || gateHeld then 0 else Share(|queue|)
      ensures mixing == old(mixing)
      ensures old(mixing) ==> r == Err(EntropyBusy) && View() == old(View()) && out[..] == old(out[..])
      ensures !old(mixing) ==>
                var (pool, answer) := Serial(old(View()), Some(out.Length), queue[..taken]);
                View() == pool &&
                match answer
                case Filled(bytes) => r == Ok(()) && out[..] == bytes
                case _ => r == Err(EntropyStarvation) && out[..] == old(out[..])
    {
      if mixing {
        return Err(EntropyBusy), 0;
      }
      mixing := true;
      taken := MixEntropyUnderGate(queue, gateHeld);
      if reseedCount == 0 {
        mixing := false;
        return Err(EntropyStarvation), taken;
      }
      FillBlocks(out);
      mixing := false;
      r := Ok(());
    }

    /** The extraction loop: snapshot, hash twice, copy, commit. */
    method FillBlocks(out: array<Byte>)
      modifies this, out
      ensures (out[..], state) == Extracted(old(state), out.Length)
      ensures reseedCount == old(reseedCount) && mixing == old(mixing)
    {
      var offset := 0;
      while offset < out.Length
        invariant 0 <= offset <= out.Length && reseedCount == old(reseedCount) && mixing == old(mixing)
        invariant Resumes(old(state), out.Length, out[..offset], state)
      {
        var snapshot := state;
        var copyLen := if out.Length - offset < 48 then out.Length - offset else 48;
        BlockResumes(old(state), out.Length, out[..offset], snapshot);
        CopyInto(out, offset, OutBlock(snapshot)[..copyLen]);
        state := NextState(snapshot);
        offset := offset + copyLen;
      }
      assert out[..offset] == out[..] && out[..] + [] == out[..];
    }
  }
}
