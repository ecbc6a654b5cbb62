/**
 The ring shared by every single-producer single-consumer queue: free-running machine-word indices
 that wrap at 2^64, reduced modulo a power-of-two capacity only to address a slot.

 `pushed` and `popped` record history; no step reads them.
 */
module WrappingQueue {
  import opened Words

  function Pow2(k: nat): nat { if k == 0 then 1 else 2 * Pow2(k - 1) }

  predicate Capacity(n: nat) { exists k: nat :: k <= 63 && n == Pow2(k) }

  // ---- Modular arithmetic ----

  lemma MulBound(n: nat, k: int)
    ensures k >= 1 ==> n * k >= n
    ensures k <= 0 ==> n * k <= 0
    ensures k <= -1 ==> n * k + n <= 0
  {
  }

  lemma ModUnique(n: nat, z: int, d: nat)
    requires 0 <= d < n
    ensures (n * z + d) % n == d
  {
    var x := n * z + d;
    var k := x / n - z;
    assert x == n * (x / n) + x % n;
    assert n * k == d - x % n;
    MulBound(n, k);
  }

  lemma {:induction false} Pow2Divides(j: nat, k: nat)
    requires j <= k
    ensures Pow2(j) > 0 && Pow2(k) == Pow2(j) * Pow2(k - j)
    decreases j
  {
    if j > 0 {
      Pow2Divides(j - 1, k - 1);
    }
  }

  lemma Pow2Words()
    ensures Pow2(64) == WORDS
  {
    assert Pow2(8) == 0x100;
    Pow2Divides(8, 16);
    Pow2Divides(16, 32);
    Pow2Divides(32, 64);
  }

  lemma MulAssociates(a: int, b: int, c: int)
    ensures (a * b) * c == a * (b * c)
  {
  }

  lemma MulDistributes(n: int, a: int, b: int)
    ensures n * (a + b) == n * a + n * b
  {
  }

  lemma ModOfMod(n: nat, m: nat, w: nat, x: nat)
    requires n > 0 && w > 0 && w == n * m
    ensures (x % w) % n == x % n
  {
    var (q, r) := (x / w, x % w);
    assert x == w * q + r;
    MulAssociates(n, m, q);
    MulDistributes(n, m * q, r / n);
    assert r == n * (r / n) + r % n;
    ModUnique(n, m * q + r / n, r % n);
  }

  /** The slot of a wrapped index is the slot of the full count. */
  lemma SlotOfWrapped(n: nat, x: nat)
    requires Capacity(n)
    ensures n > 0 && (x % WORDS) % n == x % n
  {
    var k: nat :| k <= 63 && n == Pow2(k);
    Pow2Divides(k, 64);
    Pow2Words();
    ModOfMod(n, Pow2(64 - k), WORDS, x);
  }

  lemma CapacityFits(n: nat)
    requires Capacity(n)
    ensures 0 < n < WORDS
  {
    var k: nat :| k <= 63 && n == Pow2(k);
    Pow2Divides(k, 63);
    Pow2Divides(63, 64);
    Pow2Words();
    Pow2Divides(63 - k, 63);
    MulBound(n, Pow2(63 - k));
  }

  /** Counts less than `n` apart use different slots. */
  lemma SlotsDiffer(n: nat, i: nat, j: nat)
    requires n > 0 && i < j < i + n
    ensures i % n != j % n
  {
    var k := j / n - i / n;
    assert j - i == n * k + (j % n - i % n);
    MulBound(n, k);
  }

  lemma NextIndex(x: nat)
    ensures (x % WORDS + 1) % WORDS == (x + 1) % WORDS
  {
  }

  function WrappingSub(a: nat, b: nat): nat { (a - b) % WORDS }

  lemma WrappingDistance(pushed: nat, popped: nat)
    requires popped <= pushed < popped + WORDS
    ensures WrappingSub(pushed % WORDS, popped % WORDS) == pushed - popped
    ensures pushed % WORDS == popped % WORDS <==> pushed == popped
  {
  }

  // ---- Queue and agents ----

  /** A slot holds a value, or the zero bytes a pop leaves before anything is restored. */
  datatype Cell<T> = Val(item: T) | Zeroed

  datatype Queue<T> = Queue(n: nat, head: nat, tail: nat, cells: seq<Cell<T>>, pushed: seq<T>, popped: seq<T>)

  /** Where the producer is: each constructor names its next step. */
  datatype Producer<T> =
    | PIdle
    | PLoadHead(item: T)
    | PLoadTail(item: T, head: nat)
    | PWrite(item: T, head: nat)
    | PPublish(item: T, head: nat)

  /** Where the consumer is: each constructor names its next step. */
  datatype Consumer<T> =
    | CIdle
    | CLoadTail
    | CLoadHead(tail: nat)
    | CRead(tail: nat)
    | CClear(tail: nat, item: T)
    | CRelease(tail: nat, item: T)

  predicate Sized<T>(q: Queue<T>) { 0 < q.n == |q.cells| }

  /** One step of the producer; a full queue sends it back to idle. */
  function ProducerStep<T>(q: Queue<T>, p: Producer<T>): (Queue<T>, Producer<T>)
    requires Sized(q)
  {
    match p
    case PIdle => (q, p)
    case PLoadHead(item) => (q, PLoadTail(item, q.head))
    case PLoadTail(item, head) => (q, if WrappingSub(head, q.tail) >= q.n then PIdle else PWrite(item, head))
    case PWrite(item, head) => (q.(cells := q.cells[head % q.n := Val(item)]), PPublish(item, head))
    case PPublish(item, head) => (q.(head := (head + 1) % WORDS, pushed := q.pushed + [item]), PIdle)
  }

  /** One step of the consumer; an empty queue sends it back to idle. */
  function ConsumerStep<T>(q: Queue<T>, c: Consumer<T>): (Queue<T>, Consumer<T>)
    requires Sized(q)
  {
    match c
    case CIdle => (q, c)
    case CLoadTail => (q, CLoadHead(q.tail))
    case CLoadHead(tail) => (q, if q.head == tail then CIdle else CRead(tail))
    case CRead(tail) =>
      if q.cells[tail % q.n].Val? then (q, CClear(tail, q.cells[tail % q.n].item)) else (q, c)
    case CClear(tail, item) => (q.(cells := q.cells[tail % q.n := Zeroed]), CRelease(tail, item))
    case CRelease(tail, item) => (q.(tail := (tail + 1) % WORDS, popped := q.popped + [item]), CIdle)
  }

  // ---- Invariant ----

  /** The producer is inside the slot it is filling. */
  predicate Filling<T>(p: Producer<T>) { p.PWrite? || p.PPublish? }

  /** The consumer is inside the slot it is emptying. */
  predicate Emptying<T>(c: Consumer<T>) { c.CRead? || c.CClear? || c.CRelease? }

  ghost predicate CountsInv<T>(q: Queue<T>) {
    && Capacity(q.n) && |q.cells| == q.n
    && |q.popped| <= |q.pushed| <= |q.popped| + q.n
    && q.head == |q.pushed| % WORDS && q.tail == |q.popped| % WORDS
    && q.popped == q.pushed[..|q.popped|]
  }

  /** Every stored item is in its slot, but for the one a consumer has already cleared. */
  ghost predicate StoredInv<T>(q: Queue<T>, c: Consumer<T>)
    requires CountsInv(q)
  {
    forall i :: |q.popped| <= i < |q.pushed| && (c.CRelease? ==> i > |q.popped|) ==> StoredAt(q, i)
  }

  ghost predicate StoredAt<T>(q: Queue<T>, i: nat)
    requires i < |q.pushed| && |q.cells| == q.n
  {
    q.n > 0 && q.cells[i % q.n] == Val(q.pushed[i])
  }

  ghost predicate ProducerInv<T>(q: Queue<T>, p: Producer<T>)
    requires CountsInv(q)
  {
    && (p.PLoadTail? || Filling(p) ==> p.head == q.head)
    && (Filling(p) ==> |q.pushed| < |q.popped| + q.n)
    && (p.PPublish? ==> q.n > 0 && q.cells[|q.pushed| % q.n] == Val(p.item))
  }

  ghost predicate ConsumerInv<T>(q: Queue<T>, c: Consumer<T>)
    requires CountsInv(q)
  {
    && (c.CLoadHead? || Emptying(c) ==> c.tail == q.tail)
    && (Emptying(c) ==> |q.popped| < |q.pushed|)
    && (c.CClear? || c.CRelease? ==> c.item == q.pushed[|q.popped|])
  }

  ghost predicate QueueInv<T>(q: Queue<T>, p: Producer<T>, c: Consumer<T>) {
    CountsInv(q) && StoredInv(q, c) && ProducerInv(q, p) && ConsumerInv(q, c)
  }

  lemma CountsSized<T>(q: Queue<T>)
    requires CountsInv(q)
    ensures Sized(q) && q.head % q.n == |q.pushed| % q.n && q.tail % q.n == |q.popped| % q.n
  {
    SlotOfWrapped(q.n, |q.pushed|);
    SlotOfWrapped(q.n, |q.popped|);
  }

  /** Producer and consumer are never inside the same slot. */
  lemma AgentsNeverShareASlot<T>(q: Queue<T>, p: Producer<T>, c: Consumer<T>)
    requires QueueInv(q, p, c) && Filling(p) && Emptying(c)
    ensures Sized(q) && p.head % q.n != c.tail % q.n
  {
    CountsSized(q);
    SlotsDiffer(q.n, |q.popped|, |q.pushed|);
  }

  /** The producer finds the queue full, and the consumer finds it empty, exactly when it is. */
  lemma FullAndEmptyAreExact<T>(q: Queue<T>, p: Producer<T>, c: Consumer<T>)
    requires QueueInv(q, p, c)
    ensures Sized(q)
    ensures p.PLoadTail? ==> (ProducerStep(q, p).1 == PIdle <==> |q.pushed| == |q.popped| + q.n)
    ensures c.CLoadHead? ==> (ConsumerStep(q, c).1 == CIdle <==> |q.pushed| == |q.popped|)
  {
    CountsSized(q);
    CapacityFits(q.n);
    WrappingDistance(|q.pushed|, |q.popped|);
  }

  lemma WriteKeepsInv<T>(q: Queue<T>, p: Producer<T>, c: Consumer<T>)
    requires QueueInv(q, p, c) && p.PWrite?
    ensures Sized(q) && QueueInv(ProducerStep(q, p).0, ProducerStep(q, p).1, c)
  {
    CountsSized(q);
    var q' := ProducerStep(q, p).0;
    forall i | |q.popped| <= i < |q.pushed| && (c.CRelease? ==> i > |q.popped|) ensures StoredAt(q', i) {
      SlotsDiffer(q.n, i, |q.pushed|);
      assert StoredAt(q, i);
    }
  }

  lemma PublishKeepsCounts<T>(q: Queue<T>, p: Producer<T>, c: Consumer<T>)
    requires QueueInv(q, p, c) && p.PPublish?
    ensures Sized(q) && CountsInv(ProducerStep(q, p).0)
  {
    CapacityFits(q.n);
    NextIndex(|q.pushed|);
    assert (q.pushed + [p.item])[..|q.popped|] == q.pushed[..|q.popped|];
  }

  lemma PublishKeepsInv<T>(q: Queue<T>, p: Producer<T>, c: Consumer<T>)
    requires QueueInv(q, p, c) && p.PPublish?
    ensures Sized(q) && QueueInv(ProducerStep(q, p).0, ProducerStep(q, p).1, c)
  {
    PublishKeepsCounts(q, p, c);
    var q' := ProducerStep(q, p).0;
    forall i | |q'.popped| <= i < |q'.pushed| && (c.CRelease? ==> i > |q'.popped|) ensures StoredAt(q', i) {
      if i < |q.pushed| {
        assert StoredAt(q, i);
      }
    }
  }

  lemma ProducerKeepsInv<T>(q: Queue<T>, p: Producer<T>, c: Consumer<T>)
    requires QueueInv(q, p, c)
    ensures Sized(q) && QueueInv(ProducerStep(q, p).0, ProducerStep(q, p).1, c)
  {
    CountsSized(q);
    if p.PWrite? {
      WriteKeepsInv(q, p, c);
    } else if p.PPublish? {
      PublishKeepsInv(q, p, c);
    } else {
      FullAndEmptyAreExact(q, p, c);
    }
  }

  lemma ClearKeepsInv<T>(q: Queue<T>, p: Producer<T>, c: Consumer<T>, blank: Cell<T>)
    requires QueueInv(q, p, c) && (c.CClear? || c.CRelease?)
    ensures Sized(q)
    ensures QueueInv(q.(cells := q.cells[c.tail % q.n := blank]), p, CRelease(c.tail, c.item))
  {
    CountsSized(q);
    var q' := q.(cells := q.cells[c.tail % q.n := blank]);
    forall i | |q.popped| < i < |q.pushed| ensures StoredAt(q', i) {
      SlotsDiffer(q.n, |q.popped|, i);
      assert StoredAt(q, i);
    }
    if p.PPublish? {
      SlotsDiffer(q.n, |q.popped|, |q.pushed|);
    }
  }

  lemma ReleaseKeepsInv<T>(q: Queue<T>, p: Producer<T>, c: Consumer<T>)
    requires QueueInv(q, p, c) && c.CRelease?
    ensures Sized(q) && QueueInv(ConsumerStep(q, c).0, p, ConsumerStep(q, c).1)
  {
    CountsSized(q);
    NextIndex(|q.popped|);
    var q' := ConsumerStep(q, c).0;
    assert q.pushed[..|q'.popped|] == q.pushed[..|q.popped|] + [q.pushed[|q.popped|]];
    forall i | |q'.popped| <= i < |q'.pushed| ensures StoredAt(q', i) {
      assert StoredAt(q, i);
    }
  }

  /** A consumer about to read finds the oldest item, and keeps the invariant whatever step it takes. */
  lemma ConsumerKeepsInv<T>(q: Queue<T>, p: Producer<T>, c: Consumer<T>)
    requires QueueInv(q, p, c)
    ensures Sized(q) && QueueInv(ConsumerStep(q, c).0, p, ConsumerStep(q, c).1)
    ensures c.CRead? ==> ConsumerStep(q, c).1 == CClear(c.tail, q.pushed[|q.popped|])
  {
    CountsSized(q);
    if c.CClear? {
      ClearKeepsInv(q, p, c, Zeroed);
    } else if c.CRelease? {
      ReleaseKeepsInv(q, p, c);
    } else if c.CRead? {
      assert StoredAt(q, |q.popped|);
    } else {
      FullAndEmptyAreExact(q, p, c);
    }
  }
}
