/**
 What a pool's state and output say about its past: the state determines every chunk ever mixed and every
 block ever extracted, and no byte of output is ever given out again or left in the state. Bytes are terms,
 so two are equal only if they come from the same place of the same hash of the same input.
 */
module EntropyHistory {
  import opened Words
  import opened SymbolicCrypto
  import opened Wrappers
  import opened EntropyPools
  import opened EntropySystem

  // ---- The past of a pool ----

  /** What changes a pool: a batch of at least one chunk is mixed in, or a block of output is taken. */
  datatype Change = Mix(first: Chunk, rest: seq<Chunk>) | Emit

  type Past = seq<Change>

  function Batch(change: Change): seq<Chunk>
    requires change.Mix?
  {
    [change.first] + change.rest
  }

  function Evolved(past: Past): (r: seq<Byte>)
    ensures |r| == 48
  {
    if past == [] then Zeros(48)
    else
      var before := Evolved(past[..|past| - 1]);
      match past[|past| - 1]
      case Mix(first, rest) => Mixed(before, [first] + rest)
      case Emit => NextState(before)
  }

  lemma {:induction false} ChunksLength(chunks: seq<Chunk>)
    ensures |Flatten(chunks)| == 32 * |chunks|
  {
    if chunks != [] {
      ChunksLength(chunks[1..]);
    }
  }

  /** A mix determines the state before it and the chunks, one by one. */
  lemma MixRemembers(state: seq<Byte>, chunks: seq<Chunk>, state': seq<Byte>, chunks': seq<Chunk>)
    requires |state| == |state'| == 48 && chunks != [] && chunks' != []
    requires Mixed(state, chunks) == Mixed(state', chunks')
    ensures state == state' && chunks == chunks'
  {
    HashInjective(state + Hash(Flatten(chunks)), state' + Hash(Flatten(chunks')));
    SplitConcat(state, Hash(Flatten(chunks)), state', Hash(Flatten(chunks')));
    HashInjective(Flatten(chunks), Flatten(chunks'));
    ChunksLength(chunks);
    ChunksLength(chunks');
    FlattenInjective(chunks, chunks');
  }

  lemma StepRemembers(state: seq<Byte>, state': seq<Byte>)
    requires NextState(state) == NextState(state')
    ensures state == state'
  {
    HashInjective([Raw(1)] + state, [Raw(1)] + state');
    SplitConcat([Raw(1)], state, [Raw(1)], state');
  }

  /** A mix and an extraction step never give the same state. */
  lemma MixIsNoStep(state: seq<Byte>, chunks: seq<Chunk>, state': seq<Byte>)
    requires |state| == |state'| == 48 && chunks != []
    ensures Mixed(state, chunks) != NextState(state')
  {
    if Mixed(state, chunks) == NextState(state') {
      HashInjective(state + Hash(Flatten(chunks)), [Raw(1)] + state');
    }
  }

  /** The state remembers everything: pools in the same state have mixed the same chunks and given the same blocks. */
  lemma {:induction false} StateRemembersPast(past: Past, past': Past)
    requires Evolved(past) == Evolved(past')
    ensures past == past'
    decreases |past|
  {
    if past == [] || past' == [] {
      assert Evolved(past)[0].Raw? <==> past == [];
      assert Evolved(past')[0].Raw? <==> past' == [];
    } else {
      var n, n' := |past| - 1, |past'| - 1;
      var before, before' := past[..n], past'[..n'];
      if past[n].Mix? && past'[n'].Mix? {
        MixRemembers(Evolved(before), Batch(past[n]), Evolved(before'), Batch(past'[n']));
        assert Batch(past[n])[1..] == past[n].rest && Batch(past'[n'])[1..] == past'[n'].rest;
      } else if past[n].Mix? {
        MixIsNoStep(Evolved(before), Batch(past[n]), Evolved(before'));
      } else if past'[n'].Mix? {
        MixIsNoStep(Evolved(before'), Batch(past'[n']), Evolved(before));
      } else {
        StepRemembers(Evolved(before), Evolved(before'));
      }
      StateRemembersPast(before, before');
      assert past == before + [past[n]] && past' == before' + [past'[n']];
    }
  }

  /** A byte of a block of output names the state it was taken from. */
  lemma OutputRemembersPast(past: Past, at: nat, past': Past, at': nat)
    requires at < 48 && at' < 48 && OutBlock(Evolved(past))[at] == OutBlock(Evolved(past'))[at']
    ensures past == past' && at == at'
  {
    SplitConcat([Raw(0)], Evolved(past), [Raw(0)], Evolved(past'));
    StateRemembersPast(past, past');
  }

  /** No byte of output, of any pool at any time, is a byte of the state of any pool at any time. */
  lemma OutputIsNotState(past: Past, at: nat, past': Past)
    requires at < 48
    ensures OutBlock(Evolved(past))[at] !in Evolved(past')
  {
    if past' != [] {
      var n := |past'| - 1;
      var before := past'[..n];
      var preimage := if past'[n].Mix? then Evolved(before) + Hash(Flatten(Batch(past'[n])))
                      else [Raw(1)] + Evolved(before);
      assert Evolved(past') == Hash(preimage);
      assert |[Raw(0)] + Evolved(past)| == 49 && ([Raw(0)] + Evolved(past))[0] == Raw(0);
      assert preimage != [Raw(0)] + Evolved(past) by {
        assert |preimage| == 96 || preimage[0] == Raw(1);
      }
    }
  }

  // ---- The past of a sequence of operations ----

  function Emits(blocks: nat): Past { seq(blocks, _ => Emit) }

  function MixOf(chunks: seq<Chunk>): Past { if chunks == [] then [] else [Mix(chunks[0], chunks[1..])] }

  function PastOf(op: Operation): Past {
    MixOf(op.chunks) + Emits(if op.answer.Filled? then Blocks(|op.answer.bytes|) else 0)
  }

  function History(ops: seq<Operation>): Past
    decreases |ops|
  {
    if ops == [] then [] else History(ops[..|ops| - 1]) + PastOf(ops[|ops| - 1])
  }

  function Bytes(answer: Answer): seq<Byte> { if answer.Filled? then answer.bytes else [] }

  /** Everything the operations gave out, in order. */
  function Output(ops: seq<Operation>): seq<Byte>
    decreases |ops|
  {
    if ops == [] then [] else Output(ops[..|ops| - 1]) + Bytes(ops[|ops| - 1].answer)
  }

  lemma EvolvedSnoc(past: Past, change: Change)
    ensures Evolved(past + [change])
            == if change.Mix? then Mixed(Evolved(past), Batch(change)) else NextState(Evolved(past))
  {
    assert (past + [change])[..|past|] == past;
  }

  lemma {:induction false} EvolvedEmits(past: Past, blocks: nat)
    ensures Evolved(past + Emits(blocks)) == Iterated(Evolved(past), blocks)
    decreases blocks
  {
    if blocks == 0 {
      assert past + Emits(0) == past;
    } else {
      EvolvedSnoc(past, Emit);
      EvolvedEmits(past + [Emit], blocks - 1);
      assert past + Emits(blocks) == past + [Emit] + Emits(blocks - 1);
    }
  }

  lemma MixIsHistory(past: Past, chunks: seq<Chunk>)
    ensures Mixed(Evolved(past), chunks) == Evolved(past + MixOf(chunks))
  {
    if chunks == [] {
      assert past + MixOf(chunks) == past;
    } else {
      EvolvedSnoc(past, Mix(chunks[0], chunks[1..]));
      assert [chunks[0]] + chunks[1..] == chunks;
    }
  }

  lemma ExtractionIsHistory(past: Past, length: nat)
    ensures |Extracted(Evolved(past), length).0| == length
    ensures Extracted(Evolved(past), length).1 == Evolved(past + Emits(Blocks(length)))
  {
    ExtractionSteps(Evolved(past), length);
    EvolvedEmits(past, Blocks(length));
  }

  /** What an operation that ran alone from `pool` answered, by the state it extracted from. */
  lemma SerialAnswers(pool: Pool, want: Option<nat>, chunks: seq<Chunk>)
    ensures var (after, answer) := Serial(pool, want, chunks);
            var mixed := Mixed(pool.state, chunks);
            if answer.Filled? then want.Some? && (answer.bytes, after.state) == Extracted(mixed, want.value)
            else after.state == mixed
  {
  }

  lemma PastSplits(past: Past, op: Operation)
    ensures past + PastOf(op)
            == past + MixOf(op.chunks) + Emits(if op.answer.Filled? then Blocks(|op.answer.bytes|) else 0)
    ensures !op.answer.Filled? ==> past + PastOf(op) == past + MixOf(op.chunks)
  {
  }

  lemma SerialIsHistory(past: Past, pool: Pool, op: Operation)
    requires pool.state == Evolved(past) && op.answer == Serial(pool, op.start.want, op.chunks).1
    ensures Serial(pool, op.start.want, op.chunks).0.state == Evolved(past + PastOf(op))
  {
    PastSplits(past, op);
    MixIsHistory(past, op.chunks);
    SerialAnswers(pool, op.start.want, op.chunks);
    if op.answer.Filled? {
      ExtractionIsHistory(past + MixOf(op.chunks), op.start.want.value);
    }
  }

  lemma HistorySnoc(ops: seq<Operation>, op: Operation)
    ensures History(ops + [op]) == History(ops) + PastOf(op)
  {
    assert (ops + [op])[..|ops|] == ops;
  }

  lemma LastIsLast(ops: seq<Operation>)
    requires ops != []
    ensures ops == ops[..|ops| - 1] + [ops[|ops| - 1]]
  {
  }

  lemma ReplayStep(ops: seq<Operation>, op: Operation)
    requires Replay(ops).state == Evolved(History(ops)) && FaithfulTo(ops, op)
    ensures Replay(ops + [op]).state == Evolved(History(ops + [op]))
  {
    var past, pool := History(ops), Replay(ops);
    assert Replay(ops + [op]) == Serial(pool, op.start.want, op.chunks).0 by {
      ReplaySnoc(ops, op);
    }
    assert History(ops + [op]) == past + PastOf(op) by {
      HistorySnoc(ops, op);
    }
    SerialIsHistory(past, pool, op);
  }

  /** A pool whose operations were serial is in the state of their history. */
  lemma {:induction false} ReplayIsHistory(ops: seq<Operation>)
    requires Faithful(ops)
    ensures Replay(ops).state == Evolved(History(ops))
    decreases |ops|
  {
    if ops != [] {
      var before, last := ops[..|ops| - 1], ops[|ops| - 1];
      FaithfulPrefix(ops, |ops| - 1);
      ReplayIsHistory(before);
      LastIsLast(ops);
      ReplayStep(before, last);
    }
  }

  lemma FaithfulPrefix(ops: seq<Operation>, n: nat)
    requires Faithful(ops) && n < |ops|
    ensures Faithful(ops[..n]) && FaithfulTo(ops[..n], ops[n])
  {
    forall k | 0 <= k < n ensures FaithfulTo(ops[..n][..k], ops[..n][k]) {
      assert ops[..n][..k] == ops[..k];
      assert FaithfulTo(ops[..k], ops[k]);
    }
  }

  // ---- Output ----

  /** `b` is byte `i` of the block that change `n` of the past gave out. */
  ghost predicate Given(past: Past, b: Byte, n: int, i: int) {
    0 <= n < |past| && 0 <= i < 48 && b == OutBlock(Evolved(past[..n]))[i]
  }

  lemma GivenGrows(past: Past, more: Past, b: Byte, n: int, i: int)
    requires Given(past, b, n, i)
    ensures Given(past + more, b, n, i)
  {
    assert (past + more)[..n] == past[..n];
  }

  lemma GivenApart(past: Past, b: Byte, n: int, i: int, b': Byte, n': int, i': int)
    requires Given(past, b, n, i) && Given(past, b', n', i') && (n != n' || i != i')
    ensures b != b'
  {
    if b == b' {
      OutputRemembersPast(past[..n], i, past[..n'], i');
    }
  }

  /** Byte `at` of an extraction is given by the block it falls in, counted from the mix before it. */
  lemma ExtractionGives(past: Past, length: nat, at: nat)
    requires at < length
    ensures |Extracted(Evolved(past), length).0| == length
    ensures Given(past + Emits(Blocks(length)), Extracted(Evolved(past), length).0[at], |past| + at / 48, at % 48)
  {
    ExtractedByte(Evolved(past), length, at);
    EvolvedEmits(past, at / 48);
    assert (past + Emits(Blocks(length)))[..|past| + at / 48] == past + Emits(at / 48);
  }

  /** The bytes of an extraction are those of the state its mix left. */
  ghost predicate TookFrom(past: Past, op: Operation) {
    op.answer.Filled? ==> op.answer.bytes == Extracted(Evolved(past + MixOf(op.chunks)), |op.answer.bytes|).0
  }

  lemma SerialTakes(past: Past, pool: Pool, op: Operation)
    requires pool.state == Evolved(past) && op.answer == Serial(pool, op.start.want, op.chunks).1
    ensures TookFrom(past, op)
  {
    SerialAnswers(pool, op.start.want, op.chunks);
    MixIsHistory(past, op.chunks);
    if op.answer.Filled? {
      ExtractionIsHistory(past + MixOf(op.chunks), op.start.want.value);
    }
  }

  lemma OperationGives(past: Past, op: Operation, at: nat)
    requires TookFrom(past, op) && op.answer.Filled? && at < |op.answer.bytes|
    ensures Given(past + PastOf(op), op.answer.bytes[at], |past + MixOf(op.chunks)| + at / 48, at % 48)
  {
    var mixed := past + MixOf(op.chunks);
    ExtractionGives(mixed, |op.answer.bytes|, at);
    PastSplits(past, op);
  }

  ghost predicate Distinct(s: seq<Byte>) { forall i, j :: 0 <= i < j < |s| ==> s[i] != s[j] }

  ghost predicate AllGiven(past: Past, s: seq<Byte>) { forall k :: 0 <= k < |s| ==> GivenBy(past, s[k]) }

  ghost predicate GivenBy(past: Past, b: Byte) { exists n, i :: Given(past, b, n, i) }

  lemma PlacesApart(i: nat, j: nat)
    requires i < j
    ensures i / 48 != j / 48 || i % 48 != j % 48
  {
  }

  lemma BlockBytesApart(past: Past, bytes: seq<Byte>, n: nat, i: nat, j: nat)
    requires i < j < |bytes|
    requires Given(past, bytes[i], n + i / 48, i % 48) && Given(past, bytes[j], n + j / 48, j % 48)
    ensures bytes[i] != bytes[j]
  {
    PlacesApart(i, j);
    GivenApart(past, bytes[i], n + i / 48, i % 48, bytes[j], n + j / 48, j % 48);
  }

  lemma OperationGivesAll(past: Past, op: Operation)
    requires TookFrom(past, op)
    ensures AllGiven(past + PastOf(op), Bytes(op.answer))
  {
    forall k | 0 <= k < |Bytes(op.answer)| ensures GivenBy(past + PastOf(op), Bytes(op.answer)[k]) {
      OperationGives(past, op, k);
    }
  }

  lemma OperationBytesApart(past: Past, op: Operation, i: nat, j: nat)
    requires TookFrom(past, op) && i < j < |Bytes(op.answer)|
    ensures Bytes(op.answer)[i] != Bytes(op.answer)[j]
  {
    OperationGives(past, op, i);
    OperationGives(past, op, j);
    BlockBytesApart(past + PastOf(op), Bytes(op.answer), |past + MixOf(op.chunks)|, i, j);
  }

  lemma OperationOutput(past: Past, op: Operation)
    requires TookFrom(past, op)
    ensures Distinct(Bytes(op.answer))
  {
    var bytes := Bytes(op.answer);
    forall i, j | 0 <= i < j < |bytes| ensures bytes[i] != bytes[j] {
      OperationBytesApart(past, op, i, j);
    }
  }

  /** What was given out before an operation is not given out by it. */
  lemma OutputIsNew(past: Past, op: Operation, given: seq<Byte>, i: nat, j: nat)
    requires TookFrom(past, op)
    requires AllGiven(past, given) && i < |given| && j < |Bytes(op.answer)|
    ensures given[i] != Bytes(op.answer)[j]
  {
    assert GivenBy(past, given[i]);
    var n, at :| Given(past, given[i], n, at);
    GivenGrows(past, PastOf(op), given[i], n, at);
    OperationGives(past, op, j);
    GivenApart(past + PastOf(op), given[i], n, at, Bytes(op.answer)[j], |past + MixOf(op.chunks)| + j / 48, j % 48);
  }

  lemma AllGivenJoins(past: Past, more: Past, given: seq<Byte>, s: seq<Byte>)
    requires AllGiven(past, given) && AllGiven(past + more, s)
    ensures AllGiven(past + more, given + s)
  {
    forall k | 0 <= k < |given + s| ensures GivenBy(past + more, (given + s)[k]) {
      if k < |given| {
        assert GivenBy(past, given[k]);
        var n, i :| Given(past, given[k], n, i);
        GivenGrows(past, more, given[k], n, i);
      } else {
        assert GivenBy(past + more, s[k - |given|]);
      }
    }
  }

  lemma DistinctJoins(a: seq<Byte>, b: seq<Byte>)
    requires Distinct(a) && Distinct(b) && forall i, j :: 0 <= i < |a| && 0 <= j < |b| ==> a[i] != b[j]
    ensures Distinct(a + b)
  {
  }

  lemma OutputGrows(past: Past, given: seq<Byte>, op: Operation)
    requires TookFrom(past, op) && AllGiven(past, given) && Distinct(given)
    ensures AllGiven(past + PastOf(op), given + Bytes(op.answer)) && Distinct(given + Bytes(op.answer))
  {
    OperationGivesAll(past, op);
    OperationOutput(past, op);
    AllGivenJoins(past, PastOf(op), given, Bytes(op.answer));
    forall i, j | 0 <= i < |given| && 0 <= j < |Bytes(op.answer)| ensures given[i] != Bytes(op.answer)[j] {
      OutputIsNew(past, op, given, i, j);
    }
    DistinctJoins(given, Bytes(op.answer));
  }

  lemma OutputStep(ops: seq<Operation>, op: Operation)
    requires Replay(ops).state == Evolved(History(ops)) && FaithfulTo(ops, op)
    requires Distinct(Output(ops)) && AllGiven(History(ops), Output(ops))
    ensures Distinct(Output(ops + [op])) && AllGiven(History(ops + [op]), Output(ops + [op]))
  {
    SerialTakes(History(ops), Replay(ops), op);
    OutputGrows(History(ops), Output(ops), op);
    HistorySnoc(ops, op);
    assert (ops + [op])[..|ops|] == ops;
  }

  /** Over any serial sequence of mixes and extractions, no byte of output is given out twice. */
  lemma {:induction false} OutputNeverRepeats(ops: seq<Operation>)
    requires Faithful(ops)
    ensures Distinct(Output(ops)) && AllGiven(History(ops), Output(ops))
    decreases |ops|
  {
    if ops != [] {
      var before, last := ops[..|ops| - 1], ops[|ops| - 1];
      FaithfulPrefix(ops, |ops| - 1);
      OutputNeverRepeats(before);
      ReplayIsHistory(before);
      LastIsLast(ops);
      OutputStep(before, last);
    }
  }

  lemma OutputNotInState(past: Past, s: seq<Byte>, past': Past, k: nat)
    requires AllGiven(past, s) && k < |s|
    ensures s[k] !in Evolved(past')
  {
    assert GivenBy(past, s[k]);
    var n, i :| Given(past, s[k], n, i);
    OutputIsNotState(past[..n], i, past');
  }

  /**
   On every run of any threads over any pools: no byte a pool has given out is ever given out by it again or is
   in its state, and the state of a free pool is that of the chunks it mixed and the blocks it gave, in order.
   */
  lemma OutputOnEveryRun(s: System, moves: seq<Move>, j: nat)
    requires Fresh(s) && j < |Run(s, moves).pools|
    ensures var g := Run(s, moves).pools[j];
            && Distinct(Output(g.ops))
            && (!g.mixing ==> g.pool.state == Evolved(History(g.ops)))
            && (!g.mixing ==> forall k :: 0 <= k < |Output(g.ops)| ==> Output(g.ops)[k] !in g.pool.state)
  {
    PoolOperationsSerialize(s, moves, j);
    var g := Run(s, moves).pools[j];
    OutputNeverRepeats(g.ops);
    ReplayIsHistory(g.ops);
    forall k | 0 <= k < |Output(g.ops)| ensures Output(g.ops)[k] !in Evolved(History(g.ops)) {
      OutputNotInState(History(g.ops), Output(g.ops), History(g.ops), k);
    }
  }

  // ---- Starvation ----

  function Mixes(past: Past): nat {
    if past == [] then 0 else Mixes(past[..|past| - 1]) + if past[|past| - 1].Mix? then 1 else 0
  }

  lemma {:induction false} MixesJoin(past: Past, more: Past)
    ensures Mixes(past + more) == Mixes(past) + Mixes(more)
    decreases |more|
  {
    if more == [] {
      assert past + more == past;
    } else {
      MixesJoin(past, more[..|more| - 1]);
      assert (past + more)[..|past + more| - 1] == past + more[..|more| - 1];
    }
  }

  lemma {:induction false} EmitsMixNothing(blocks: nat)
    ensures Mixes(Emits(blocks)) == 0
  {
    if blocks > 0 {
      assert Emits(blocks)[..blocks - 1] == Emits(blocks - 1);
      EmitsMixNothing(blocks - 1);
    }
  }

  lemma PastMixes(past: Past, op: Operation)
    ensures Mixes(past + PastOf(op)) == Mixes(past + MixOf(op.chunks)) == Mixes(past) + if op.chunks == [] then 0 else 1
  {
    MixesJoin(past, MixOf(op.chunks));
    MixesJoin(past, PastOf(op));
    var blocks := if op.answer.Filled? then Blocks(|op.answer.bytes|) else 0;
    MixesJoin(MixOf(op.chunks), Emits(blocks));
    EmitsMixNothing(blocks);
    assert Mixes(MixOf(op.chunks)) == if op.chunks == [] then 0 else 1;
  }

  function Wrapped(count: nat): nat { count % WORDS }

  lemma CountStep(reseeds: nat, mixes: nat, mixing: bool)
    requires reseeds == Wrapped(mixes)
    ensures (if mixing then NextCount(reseeds) else reseeds) == Wrapped(mixes + if mixing then 1 else 0)
  {
  }

  /** What an operation that ran alone from `pool` did to the reseed counter, and what it answered by it. */
  lemma SerialReseeds(pool: Pool, want: Option<nat>, chunks: seq<Chunk>)
    ensures var reseeds := if chunks == [] then pool.reseeds else NextCount(pool.reseeds);
            var (after, answer) := Serial(pool, want, chunks);
            && after.reseeds == reseeds
            && if want.None? then answer == Mixing
               else if reseeds == 0 then answer == Starved
               else answer.Filled? && |answer.bytes| == want.value
  {
    if want.Some? {
      ExtractionSteps(Mixed(pool.state, chunks), want.value);
    }
  }

  /** The reseed counter counts the mixes, modulo 2^64. */
  lemma {:induction false} ReseedsCountMixes(ops: seq<Operation>)
    ensures Replay(ops).reseeds == Wrapped(Mixes(History(ops)))
    decreases |ops|
  {
    if ops != [] {
      var before, last := ops[..|ops| - 1], ops[|ops| - 1];
      ReseedsCountMixes(before);
      PastMixes(History(before), last);
      SerialReseeds(Replay(before), last.start.want, last.chunks);
      CountStep(Replay(before).reseeds, Mixes(History(before)), last.chunks != []);
    }
  }

  lemma SeedingCounted(before: seq<Operation>, op: Operation)
    ensures (if op.chunks == [] then Replay(before).reseeds else NextCount(Replay(before).reseeds))
            == Wrapped(Mixes(History(before) + MixOf(op.chunks)))
  {
    var (reseeds, mixes) := (Replay(before).reseeds, Mixes(History(before)));
    assert reseeds == Wrapped(mixes) by {
      ReseedsCountMixes(before);
    }
    assert Mixes(History(before) + MixOf(op.chunks)) == mixes + if op.chunks != [] then 1 else 0 by {
      PastMixes(History(before), op);
    }
    CountStep(reseeds, mixes, op.chunks != []);
  }

  lemma AnsweredBySeeding(before: seq<Operation>, op: Operation)
    requires FaithfulTo(before, op)
    ensures var mixes := Mixes(History(before) + MixOf(op.chunks));
            if op.start.want.None? then op.answer == Mixing
            else if Wrapped(mixes) == 0 then op.answer == Starved
            else op.answer.Filled? && |op.answer.bytes| == op.start.want.value
  {
    SeedingCounted(before, op);
    SerialReseeds(Replay(before), op.start.want, op.chunks);
  }

  /**
   On every run, what each operation answered: an extraction is starved exactly when the mixes of its pool so
   far, its own included, number a multiple of 2^64 (none, in practice), and is filled to its length otherwise.
   */
  lemma StarvedExactlyUnseeded(s: System, moves: seq<Move>, j: nat, k: nat)
    requires Fresh(s) && j < |Run(s, moves).pools| && k < |Run(s, moves).pools[j].ops|
    ensures var ops := Run(s, moves).pools[j].ops;
            var (want, answer) := (ops[k].start.want, ops[k].answer);
            var mixes := Mixes(History(ops[..k]) + MixOf(ops[k].chunks));
            if want.None? then answer == Mixing
            else if Wrapped(mixes) == 0 then answer == Starved
            else answer.Filled? && |answer.bytes| == want.value
  {
    PoolOperationsSerialize(s, moves, j);
    var ops := Run(s, moves).pools[j].ops;
    assert FaithfulTo(ops[..k], ops[k]);
    AnsweredBySeeding(ops[..k], ops[k]);
  }
}
