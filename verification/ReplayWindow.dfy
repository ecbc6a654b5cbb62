/**
 Nonce encoding and the 64-packet sliding replay window.

 A 64-bit bitmap is written as its 64 bits, bit `k` at index `k`. The pair (highest sequence,
 bitmap) is proved to represent the set of all sequences ever committed, on every run of commits,
 including jumps of 64 or more and values next to 2^64.
 */
module ReplayWindow {
  import opened Words
  import opened SymbolicCrypto

  type Nonce = n: seq<u8> | |n| == 12 witness [0, 0, 0, 0, 0, 0, 0, 0, 0, 0, 0, 0]

  function NoBits(): seq<bool> { seq(64, _ => false) }

  type Bits64 = b: seq<bool> | |b| == 64 witness NoBits()

  /** `to_le_bytes` of an unsigned integer of `width` bytes. */
  function ToLeBytes(n: nat, width: nat): (r: seq<u8>)
    ensures |r| == width
    decreases width
  {
    if width == 0 then [] else [n % 256] + ToLeBytes(n / 256, width - 1)
  }

  function FromLeBytes(b: seq<u8>): nat
  {
    if b == [] then 0 else b[0] + 256 * FromLeBytes(b[1..])
  }

  lemma {:induction false} LeBytesRoundTrip(n: nat, width: nat)
    requires n < Pow256(width)
    ensures FromLeBytes(ToLeBytes(n, width)) == n
    decreases width
  {
    if width > 0 {
      LeBytesRoundTrip(n / 256, width - 1);
      assert ToLeBytes(n, width)[1..] == ToLeBytes(n / 256, width - 1);
    }
  }

  lemma {:induction false} FromLeBytesBound(b: seq<u8>)
    ensures FromLeBytes(b) < Pow256(|b|)
  {
    if b != [] {
      FromLeBytesBound(b[1..]);
    }
  }

  lemma Pow256Of8()
    ensures Pow256(8) == 0x1_0000_0000_0000_0000
  {
  }

  function NonceOf(counter: u64): Nonce { ToLeBytes(counter, 8) + [0, 0, 0, 0] }

  function SequenceOf(nonce: Nonce): u64 {
    FromLeBytesBound(nonce[..8]);
    Pow256Of8();
    FromLeBytes(nonce[..8])
  }

  predicate ZeroTailed(nonce: Nonce) { nonce[8] == nonce[9] == nonce[10] == nonce[11] == 0 }

  lemma NonceRoundTrip(counter: u64)
    ensures SequenceOf(NonceOf(counter)) == counter && ZeroTailed(NonceOf(counter))
  {
    assert NonceOf(counter)[..8] == ToLeBytes(counter, 8);
    Pow256Of8();
    LeBytesRoundTrip(counter, 8);
  }

  /** A zero-tailed nonce is determined by its sequence number. */
  lemma NonceDetermined(nonce: Nonce)
    requires ZeroTailed(nonce)
    ensures NonceOf(SequenceOf(nonce)) == nonce
  {
    ToLeInvertsFromLe(nonce[..8]);
    assert nonce == nonce[..8] + [nonce[8], nonce[9], nonce[10], nonce[11]];
  }

  lemma {:induction false} ToLeInvertsFromLe(b: seq<u8>)
    ensures ToLeBytes(FromLeBytes(b), |b|) == b
  {
    if b != [] {
      ToLeInvertsFromLe(b[1..]);
    }
  }

  function ShiftLeft(w: Bits64, s: nat): Bits64 { seq(64, k => if k < s || k - s >= 64 then false else w[k - s]) }

  /** The highest accepted sequence and, at bit `k`, whether `counter - k` was accepted. */
  datatype Window = Window(counter: u64, bits: Bits64)

  function Empty(): Window { Window(0, NoBits()) }

  /** The accept test: `Ok` of the nonce check. */
  predicate Accepts(w: Window, nonce: Nonce) {
    ZeroTailed(nonce) &&
    var sequence := SequenceOf(nonce);
    sequence > w.counter || (w.counter - sequence < 64 && !w.bits[w.counter - sequence])
  }

  function Advance(bits: Bits64, shift: nat): Bits64 {
    if shift >= 64 then seq(64, k => k == 0) else ShiftLeft(bits, shift)[0 := true]
  }

  function Commit(w: Window, sequence: u64): Window {
    if sequence > w.counter then Window(sequence, Advance(w.bits, sequence - w.counter))
    else if w.counter - sequence >= 64 then w
    else Window(w.counter, w.bits[w.counter - sequence := true])
  }

  /** `w` is what is left of the full history `committed`. */
  ghost predicate Represents(w: Window, committed: set<u64>) {
    && (forall x :: x in committed ==> x <= w.counter)
    && (if committed == {} then w.counter == 0 else w.counter in committed)
    && (forall k :: 0 <= k < 64 && k <= w.counter ==> (w.bits[k] <==> (w.counter - k) in committed))
  }

  /** The law the window implements: unseen, and not 64 or more behind anything committed. */
  ghost predicate Unseen(committed: set<u64>, sequence: u64) {
    sequence !in committed && forall x :: x in committed ==> x < sequence + 64
  }

  lemma AcceptsExactlyUnseen(w: Window, committed: set<u64>, nonce: Nonce)
    requires Represents(w, committed)
    ensures Accepts(w, nonce) <==> ZeroTailed(nonce) && Unseen(committed, SequenceOf(nonce))
  {
  }

  lemma CommitRepresents(w: Window, committed: set<u64>, sequence: u64)
    requires Represents(w, committed)
    ensures Represents(Commit(w, sequence), committed + {sequence})
  {
  }

  ghost function Elements(sequences: seq<u64>): set<u64> { set x | x in sequences }

  function CommitAll(w: Window, sequences: seq<u64>): Window
    decreases |sequences|
  {
    if sequences == [] then w else CommitAll(Commit(w, sequences[0]), sequences[1..])
  }

  /** Over every run of commits the pair represents exactly the set of committed sequences. */
  lemma {:induction false} CommitAllRepresents(w: Window, committed: set<u64>, sequences: seq<u64>)
    requires Represents(w, committed)
    ensures Represents(CommitAll(w, sequences), committed + Elements(sequences))
    decreases |sequences|
  {
    if sequences == [] {
      assert committed + Elements(sequences) == committed;
    } else {
      CommitRepresents(w, committed, sequences[0]);
      CommitAllRepresents(Commit(w, sequences[0]), committed + {sequences[0]}, sequences[1..]);
      assert committed + Elements(sequences) == (committed + {sequences[0]}) + Elements(sequences[1..]);
    }
  }

  /** On every run from a fresh session the check accepts exactly the unseen, zero-tailed nonces. */
  lemma ReplayWindowLaw(sequences: seq<u64>, nonce: Nonce)
    ensures Accepts(CommitAll(Empty(), sequences), nonce) <==>
            ZeroTailed(nonce) && Unseen(Elements(sequences), SequenceOf(nonce))
  {
    CommitAllRepresents(Empty(), {}, sequences);
    assert {} + Elements(sequences) == Elements(sequences);
    AcceptsExactlyUnseen(CommitAll(Empty(), sequences), Elements(sequences), nonce);
  }
}
