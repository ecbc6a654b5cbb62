/**
 The buffer checks at the C boundary: whether a pointer and a length describe one range, and whether
 any two ranges that may be written alias each other.
 */
module FfiRanges {
  import opened Words

  const MAX_SLICE_LEN: nat := 0x7FFF_FFFF_FFFF_FFFF

  type usize = x: int | 0 <= x < WORDS

  datatype Region = Region(start: usize, length: usize, writable: bool)

  // ---- The source's tests ----

  predicate RangeOk(start: usize, length: usize) {
    length <= MAX_SLICE_LEN && (length == 0 || start + length < WORDS)
  }

  predicate RangesOverlap(first: usize, firstLen: usize, second: usize, secondLen: usize) {
    if firstLen == 0 || secondLen == 0 then false
    else if first + firstLen >= WORDS then true
    else if second + secondLen >= WORDS then true
    else first < second + secondLen && second < first + firstLen
  }

  predicate SessionEncryptBuffersOverlap(
    managerSize: usize, manager: usize, aad: usize, aadLen: usize, plaintext: usize, ciphertext: usize,
    dataLen: usize, outNonce: usize, outTag: usize)
  {
    || RangesOverlap(manager, managerSize, aad, aadLen)
    || RangesOverlap(manager, managerSize, plaintext, dataLen)
    || RangesOverlap(manager, managerSize, ciphertext, dataLen)
    || RangesOverlap(manager, managerSize, outNonce, 12)
    || RangesOverlap(manager, managerSize, outTag, 48)
    || RangesOverlap(ciphertext, dataLen, aad, aadLen)
    || RangesOverlap(ciphertext, dataLen, plaintext, dataLen)
    || RangesOverlap(ciphertext, dataLen, outNonce, 12)
    || RangesOverlap(ciphertext, dataLen, outTag, 48)
    || RangesOverlap(outNonce, 12, aad, aadLen)
    || RangesOverlap(outNonce, 12, plaintext, dataLen)
    || RangesOverlap(outNonce, 12, outTag, 48)
    || RangesOverlap(outTag, 48, aad, aadLen)
    || RangesOverlap(outTag, 48, plaintext, dataLen)
  }

  predicate SessionDecryptBuffersOverlap(
    managerSize: usize, manager: usize, aad: usize, aadLen: usize, ciphertext: usize, dataLen: usize,
    nonce: usize, tag: usize, plaintext: usize)
  {
    || RangesOverlap(manager, managerSize, aad, aadLen)
    || RangesOverlap(manager, managerSize, ciphertext, dataLen)
    || RangesOverlap(manager, managerSize, nonce, 12)
    || RangesOverlap(manager, managerSize, tag, 48)
    || RangesOverlap(manager, managerSize, plaintext, dataLen)
    || RangesOverlap(plaintext, dataLen, aad, aadLen)
    || RangesOverlap(plaintext, dataLen, ciphertext, dataLen)
    || RangesOverlap(plaintext, dataLen, nonce, 12)
    || RangesOverlap(plaintext, dataLen, tag, 48)
  }

  predicate AeadEncryptBuffersOverlap(
    encKey: usize, macKey: usize, nonce: usize, aad: usize, aadLen: usize, plaintext: usize,
    ciphertext: usize, outMac: usize, dataLen: usize)
  {
    || RangesOverlap(ciphertext, dataLen, encKey, 32)
    || RangesOverlap(ciphertext, dataLen, macKey, 32)
    || RangesOverlap(ciphertext, dataLen, nonce, 12)
    || RangesOverlap(ciphertext, dataLen, aad, aadLen)
    || RangesOverlap(ciphertext, dataLen, plaintext, dataLen)
    || RangesOverlap(outMac, 48, encKey, 32)
    || RangesOverlap(outMac, 48, macKey, 32)
    || RangesOverlap(outMac, 48, nonce, 12)
    || RangesOverlap(outMac, 48, aad, aadLen)
    || RangesOverlap(outMac, 48, plaintext, dataLen)
    || RangesOverlap(outMac, 48, ciphertext, dataLen)
  }

  predicate AeadDecryptBuffersOverlap(
    encKey: usize, macKey: usize, nonce: usize, aad: usize, aadLen: usize, ciphertext: usize, mac: usize,
    plaintext: usize, dataLen: usize)
  {
    || RangesOverlap(plaintext, dataLen, encKey, 32)
    || RangesOverlap(plaintext, dataLen, macKey, 32)
    || RangesOverlap(plaintext, dataLen, nonce, 12)
    || RangesOverlap(plaintext, dataLen, aad, aadLen)
    || RangesOverlap(plaintext, dataLen, ciphertext, dataLen)
    || RangesOverlap(plaintext, dataLen, mac, 48)
  }

  // ---- What they decide ----

  /** The addresses a range names, as if the address space did not end. */
  ghost predicate Covers(r: Region, address: int) { r.start <= address < r.start + r.length }

  /** The end address of a range must itself be representable. */
  predicate Wraps(r: Region) { r.length > 0 && r.start + r.length >= WORDS }

  ghost predicate ShareAnAddress(a: Region, b: Region) { exists x :: Covers(a, x) && Covers(b, x) }

  /** Two regions may be handed out together. */
  ghost predicate Compatible(a: Region, b: Region) {
    a.length > 0 && b.length > 0 && (a.writable || b.writable) ==>
      !Wraps(a) && !Wraps(b) && !ShareAnAddress(a, b)
  }

  ghost predicate AllCompatible(regions: seq<Region>) {
    forall i, j :: 0 <= i < j < |regions| ==> Compatible(regions[i], regions[j])
  }

  lemma OverlapDecidesSharing(a: Region, b: Region)
    ensures RangesOverlap(a.start, a.length, b.start, b.length)
            <==> a.length > 0 && b.length > 0 && (Wraps(a) || Wraps(b) || ShareAnAddress(a, b))
    ensures RangesOverlap(a.start, a.length, b.start, b.length) <==> RangesOverlap(b.start, b.length, a.start, a.length)
  {
    if a.length > 0 && b.length > 0 && a.start < b.start + b.length && b.start < a.start + a.length {
      var x := if a.start < b.start then b.start else a.start;
      assert Covers(a, x) && Covers(b, x);
    }
  }

  /** A slice that passes does not wrap, and every element has an address. */
  lemma RangeOkIff(start: usize, length: usize, writable: bool)
    ensures RangeOk(start, length) <==> length <= MAX_SLICE_LEN && !Wraps(Region(start, length, writable))
    ensures RangeOk(start, length) ==>
              forall x :: Covers(Region(start, length, writable), x) ==> 0 <= x < WORDS
  {
  }

  lemma PairDecides(a: Region, b: Region)
    ensures !Compatible(a, b) <==> ((a.writable || b.writable) && a.length > 0 && b.length > 0
                                    && RangesOverlap(a.start, a.length, b.start, b.length))
  {
    OverlapDecidesSharing(a, b);
  }

  method WritableRegionsOverlap(regions: seq<Region>) returns (overlap: bool)
    ensures !overlap <==> AllCompatible(regions)
  {
    for index := 0 to |regions|
      invariant forall i, j :: 0 <= i < index && i < j < |regions| ==> Compatible(regions[i], regions[j])
    {
      var first := regions[index];
      for other := index + 1 to |regions|
        invariant forall j :: index < j < other ==> Compatible(first, regions[j])
      {
        var second := regions[other];
        PairDecides(first, second);
        if (first.writable || second.writable) && first.length > 0 && second.length > 0
           && RangesOverlap(first.start, first.length, second.start, second.length) {
          return true;
        }
      }
    }
    return false;
  }

  // ---- The hand-written pair lists ----

  lemma SixPairs(a: Region, b: Region, c: Region, d: Region, e: Region, f: Region)
    ensures AllCompatible([a, b, c, d, e, f]) <==>
            (&& Compatible(a, b) && Compatible(a, c) && Compatible(a, d) && Compatible(a, e) && Compatible(a, f)
             && Compatible(b, c) && Compatible(b, d) && Compatible(b, e) && Compatible(b, f)
             && Compatible(c, d) && Compatible(c, e) && Compatible(c, f)
             && Compatible(d, e) && Compatible(d, f)
             && Compatible(e, f))
  {
    var rs := [a, b, c, d, e, f];
    if AllCompatible(rs) {
      assert Compatible(rs[0], rs[1]) && Compatible(rs[0], rs[2]) && Compatible(rs[0], rs[3])
             && Compatible(rs[0], rs[4]) && Compatible(rs[0], rs[5]);
      assert Compatible(rs[1], rs[2]) && Compatible(rs[1], rs[3]) && Compatible(rs[1], rs[4])
             && Compatible(rs[1], rs[5]);
      assert Compatible(rs[2], rs[3]) && Compatible(rs[2], rs[4]) && Compatible(rs[2], rs[5]);
      assert Compatible(rs[3], rs[4]) && Compatible(rs[3], rs[5]);
      assert Compatible(rs[4], rs[5]);
    }
  }

  lemma SevenPairs(a: Region, b: Region, c: Region, d: Region, e: Region, f: Region, g: Region)
    ensures AllCompatible([a, b, c, d, e, f, g]) <==>
            (&& Compatible(a, b) && Compatible(a, c) && Compatible(a, d) && Compatible(a, e) && Compatible(a, f)
             && Compatible(a, g)
             && Compatible(b, c) && Compatible(b, d) && Compatible(b, e) && Compatible(b, f) && Compatible(b, g)
             && Compatible(c, d) && Compatible(c, e) && Compatible(c, f) && Compatible(c, g)
             && Compatible(d, e) && Compatible(d, f) && Compatible(d, g)
             && Compatible(e, f) && Compatible(e, g)
             && Compatible(f, g))
  {
    var rs := [a, b, c, d, e, f, g];
    if AllCompatible(rs) {
      assert Compatible(rs[0], rs[1]) && Compatible(rs[0], rs[2]) && Compatible(rs[0], rs[3])
             && Compatible(rs[0], rs[4]) && Compatible(rs[0], rs[5]) && Compatible(rs[0], rs[6]);
      assert Compatible(rs[1], rs[2]) && Compatible(rs[1], rs[3]) && Compatible(rs[1], rs[4])
             && Compatible(rs[1], rs[5]) && Compatible(rs[1], rs[6]);
      assert Compatible(rs[2], rs[3]) && Compatible(rs[2], rs[4]) && Compatible(rs[2], rs[5])
             && Compatible(rs[2], rs[6]);
      assert Compatible(rs[3], rs[4]) && Compatible(rs[3], rs[5]) && Compatible(rs[3], rs[6]);
      assert Compatible(rs[4], rs[5]) && Compatible(rs[4], rs[6]);
      assert Compatible(rs[5], rs[6]);
    }
  }

  /** A pair test of the hand-written lists, in either order. */
  lemma PairTest(a: Region, b: Region)
    requires a.writable || b.writable
    ensures Compatible(a, b) <==> !RangesOverlap(a.start, a.length, b.start, b.length)
    ensures Compatible(a, b) <==> !RangesOverlap(b.start, b.length, a.start, a.length)
  {
    OverlapDecidesSharing(a, b);
  }

  lemma SessionEncryptChecksEveryPair(
    managerSize: usize, manager: usize, aad: usize, aadLen: usize, plaintext: usize, ciphertext: usize,
    dataLen: usize, outNonce: usize, outTag: usize)
    ensures SessionEncryptBuffersOverlap(managerSize, manager, aad, aadLen, plaintext, ciphertext, dataLen, outNonce,
                                         outTag)
            <==> !AllCompatible([Region(manager, managerSize, true), Region(aad, aadLen, false),
                                 Region(plaintext, dataLen, false), Region(ciphertext, dataLen, true),
                                 Region(outNonce, 12, true), Region(outTag, 48, true)])
  {
    var (m, a, p) := (Region(manager, managerSize, true), Region(aad, aadLen, false),
                      Region(plaintext, dataLen, false));
    var (c, n, t) := (Region(ciphertext, dataLen, true), Region(outNonce, 12, true), Region(outTag, 48, true));
    SixPairs(m, a, p, c, n, t);
    PairTest(m, a); PairTest(m, p); PairTest(m, c); PairTest(m, n); PairTest(m, t);
    PairTest(c, a); PairTest(c, p); PairTest(c, n); PairTest(c, t);
    PairTest(n, a); PairTest(n, p); PairTest(n, t); PairTest(t, a); PairTest(t, p);
  }

  lemma SessionDecryptChecksEveryPair(
    managerSize: usize, manager: usize, aad: usize, aadLen: usize, ciphertext: usize, dataLen: usize,
    nonce: usize, tag: usize, plaintext: usize)
    ensures SessionDecryptBuffersOverlap(managerSize, manager, aad, aadLen, ciphertext, dataLen, nonce, tag, plaintext)
            <==> !AllCompatible([Region(manager, managerSize, true), Region(aad, aadLen, false),
                                 Region(ciphertext, dataLen, false), Region(nonce, 12, false),
                                 Region(tag, 48, false), Region(plaintext, dataLen, true)])
  {
    var (m, a, c) := (Region(manager, managerSize, true), Region(aad, aadLen, false),
                      Region(ciphertext, dataLen, false));
    var (n, t, p) := (Region(nonce, 12, false), Region(tag, 48, false), Region(plaintext, dataLen, true));
    SixPairs(m, a, c, n, t, p);
    PairTest(m, a); PairTest(m, c); PairTest(m, n); PairTest(m, t); PairTest(m, p);
    PairTest(p, a); PairTest(p, c); PairTest(p, n); PairTest(p, t);
  }

  lemma AeadEncryptChecksEveryPair(
    encKey: usize, macKey: usize, nonce: usize, aad: usize, aadLen: usize, plaintext: usize,
    ciphertext: usize, outMac: usize, dataLen: usize)
    ensures AeadEncryptBuffersOverlap(encKey, macKey, nonce, aad, aadLen, plaintext, ciphertext, outMac, dataLen)
            <==> !AllCompatible([Region(encKey, 32, false), Region(macKey, 32, false), Region(nonce, 12, false),
                                 Region(aad, aadLen, false), Region(plaintext, dataLen, false),
                                 Region(ciphertext, dataLen, true), Region(outMac, 48, true)])
  {
    var (e, k, n, a) := (Region(encKey, 32, false), Region(macKey, 32, false), Region(nonce, 12, false),
                         Region(aad, aadLen, false));
    var (p, c, t) := (Region(plaintext, dataLen, false), Region(ciphertext, dataLen, true), Region(outMac, 48, true));
    SevenPairs(e, k, n, a, p, c, t);
    PairTest(c, e); PairTest(c, k); PairTest(c, n); PairTest(c, a); PairTest(c, p);
    PairTest(t, e); PairTest(t, k); PairTest(t, n); PairTest(t, a); PairTest(t, p); PairTest(t, c);
  }

  lemma AeadDecryptChecksEveryPair(
    encKey: usize, macKey: usize, nonce: usize, aad: usize, aadLen: usize, ciphertext: usize, mac: usize,
    plaintext: usize, dataLen: usize)
    ensures AeadDecryptBuffersOverlap(encKey, macKey, nonce, aad, aadLen, ciphertext, mac, plaintext, dataLen)
            <==> !AllCompatible([Region(encKey, 32, false), Region(macKey, 32, false), Region(nonce, 12, false),
                                 Region(aad, aadLen, false), Region(ciphertext, dataLen, false),
                                 Region(mac, 48, false), Region(plaintext, dataLen, true)])
  {
    var (e, k, n, a) := (Region(encKey, 32, false), Region(macKey, 32, false), Region(nonce, 12, false),
                         Region(aad, aadLen, false));
    var (c, t, p) := (Region(ciphertext, dataLen, false), Region(mac, 48, false), Region(plaintext, dataLen, true));
    SevenPairs(e, k, n, a, c, t, p);
    PairTest(p, e); PairTest(p, k); PairTest(p, n); PairTest(p, a); PairTest(p, c); PairTest(p, t);
  }
}
