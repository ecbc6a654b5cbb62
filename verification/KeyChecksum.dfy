/**
 The integrity checksum kept beside each installed session key.
 */
module KeyChecksum {

  function RotateLeft5(c: bv32): bv32 { (c << 5) | (c >> 27) }

  /** Where the byte at `index` enters the accumulator: `(index % 4) * 8` bits up. */
  function Placed(index: nat, b: bv8): bv32 {
    match index % 4
    case 0 => b as bv32
    case 1 => (b as bv32) << 8
    case 2 => (b as bv32) << 16
    case _ => (b as bv32) << 24
  }

  function Absorb(checksum: bv32, index: nat, b: bv8): bv32 {
    RotateLeft5(checksum ^ Placed(index, b)) ^ 0x9E37_79B9
  }

  type Absorber<!A> = (A, nat, bv8) -> A

  /** The accumulator `f` leaves after the bytes of `key`, started at `c` and position `index`. */
  function Fold<A>(f: Absorber<A>, c: A, index: nat, key: seq<bv8>): A
    decreases |key|
  {
    if key == [] then c else Fold(f, f(c, index, key[0]), index + 1, key[1..])
  }

  function Checksum(key: seq<bv8>): bv32 {
    Fold(Absorb, 0, 0, key)
  }

  lemma {:induction false} FoldSplits<A>(f: Absorber<A>, c: A, index: nat, front: seq<bv8>, back: seq<bv8>)
    ensures Fold(f, c, index, front + back) == Fold(f, Fold(f, c, index, front), index + |front|, back)
    decreases |front|
  {
    if front == [] {
      assert front + back == back;
    } else {
      assert (front + back)[1..] == front[1..] + back;
      FoldSplits(f, f(c, index, front[0]), index + 1, front[1..], back);
    }
  }

  method Compute(key: seq<bv8>) returns (checksum: bv32)
    ensures checksum == Checksum(key)
  {
    checksum := 0;
    var index := 0;
    while index < |key|
      invariant 0 <= index <= |key|
      invariant Fold(Absorb, checksum, index, key[index..]) == Checksum(key)
    {
      assert key[index..][1..] == key[index + 1..];
      checksum := checksum ^ Placed(index, key[index]);
      checksum := RotateLeft5(checksum) ^ 0x9E37_79B9;
      index := index + 1;
    }
  }

  ghost predicate InjectiveInState<A(!new)>(f: Absorber<A>) {
    forall c, d, index, b {:trigger f(c, index, b), f(d, index, b)} :: c != d ==> f(c, index, b) != f(d, index, b)
  }

  lemma {:induction false} DifferenceSurvives<A(!new)>(f: Absorber<A>, c: A, d: A, index: nat, key: seq<bv8>)
    requires InjectiveInState(f) && c != d
    ensures Fold(f, c, index, key) != Fold(f, d, index, key)
    decreases |key|
  {
    if key != [] {
      var b := key[0];
      assert f(c, index, b) != f(d, index, b);
      DifferenceSurvives(f, f(c, index, key[0]), f(d, index, key[0]), index + 1, key[1..]);
    }
  }

  lemma RotateInjective(c: bv32, d: bv32)
    requires c != d
    ensures RotateLeft5(c) != RotateLeft5(d)
  {
  }

  lemma PlacedInjective(x: bv8, y: bv8)
    requires x != y
    ensures x as bv32 != y as bv32 && (x as bv32) << 8 != (y as bv32) << 8
    ensures (x as bv32) << 16 != (y as bv32) << 16 && (x as bv32) << 24 != (y as bv32) << 24
  {
  }

  lemma AbsorbInjectiveInState(c: bv32, d: bv32, p: bv32)
    requires c != d
    ensures RotateLeft5(c ^ p) ^ 0x9E37_79B9 != RotateLeft5(d ^ p) ^ 0x9E37_79B9
  {
    RotateInjective(c ^ p, d ^ p);
  }

  lemma AbsorbInjectiveInByte(c: bv32, p: bv32, q: bv32)
    requires p != q
    ensures RotateLeft5(c ^ p) ^ 0x9E37_79B9 != RotateLeft5(c ^ q) ^ 0x9E37_79B9
  {
    RotateInjective(c ^ p, c ^ q);
  }

  /** One changed byte changes any injective fold. */
  lemma OneByteChangesFold<A(!new)>(f: Absorber<A>, start: A, key: seq<bv8>, at: nat, b: bv8)
    requires InjectiveInState(f)
    requires at < |key| && b != key[at]
    requires forall c :: f(c, at, b) != f(c, at, key[at])
    ensures Fold(f, start, 0, key[at := b]) != Fold(f, start, 0, key)
  {
    var front, back := key[..at], key[at + 1..];
    var c := Fold(f, start, 0, front);
    assert key == front + ([key[at]] + back);
    assert key[at := b] == front + ([b] + back);
    FoldSplits(f, start, 0, front, [key[at]] + back);
    FoldSplits(f, start, 0, front, [b] + back);
    assert ([key[at]] + back)[1..] == back && ([b] + back)[1..] == back;
    DifferenceSurvives(f, f(c, at, key[at]), f(c, at, b), at + 1, back);
  }

  lemma AbsorbSeparatesStates()
    ensures InjectiveInState(Absorb)
  {
    forall c, d, index, b | c != d ensures Absorb(c, index, b) != Absorb(d, index, b) {
      AbsorbInjectiveInState(c, d, Placed(index, b));
    }
  }

  lemma AbsorbSeparatesBytes(c: bv32, index: nat, a: bv8, b: bv8)
    requires a != b
    ensures Absorb(c, index, a) != Absorb(c, index, b)
  {
    PlacedInjective(a, b);
    AbsorbInjectiveInByte(c, Placed(index, a), Placed(index, b));
  }

  /** Corruption confined to one byte always changes the checksum. */
  lemma SingleByteCorruptionDetected(key: seq<bv8>, at: nat, b: bv8)
    requires at < |key| && b != key[at]
    ensures Checksum(key[at := b]) != Checksum(key)
  {
    AbsorbSeparatesStates();
    forall c: bv32 ensures Absorb(c, at, b) != Absorb(c, at, key[at]) {
      AbsorbSeparatesBytes(c, at, b, key[at]);
    }
    OneByteChangesFold(Absorb, 0, key, at, b);
  }
}
