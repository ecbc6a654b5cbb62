/**
 ChaCha20 with HMAC-SHA384 in encrypt-then-MAC composition.
 */
module Aead {
  import opened SymbolicCrypto
  import opened HybridKdf
  import opened ReplayWindow

  const CHACHA20_MAX_BYTES: int := 0xFFFF_FFFF * 64

  /** A byte slice; no slice is longer than `isize::MAX`. */
  type Slice = s: seq<bv8> | |s| < 0x8000_0000_0000_0000 witness []

  /** What the MAC covers: both lengths, the nonce, the associated data, the ciphertext. */
  function MacInput(nonce: Nonce, aad: Slice, ciphertext: Slice): seq<Byte> {
    Flatten([BigEndian(|aad|, 8), BigEndian(|ciphertext|, 8), Raws(nonce), Lift(aad), Lift(ciphertext)])
  }

  lemma MacInputInjective(n: Nonce, a: Slice, c: Slice, n': Nonce, a': Slice, c': Slice)
    requires MacInput(n, a, c) == MacInput(n', a', c')
    ensures n == n' && a == a' && c == c'
  {
    var p1, q1 := [BigEndian(|c|, 8), Raws(n), Lift(a), Lift(c)], [BigEndian(|c'|, 8), Raws(n'), Lift(a'), Lift(c')];
    var ps, qs := [BigEndian(|a|, 8)] + p1, [BigEndian(|a'|, 8)] + q1;
    assert ps[1..] == p1 && qs[1..] == q1;
    SplitConcat(ps[0], Flatten(p1), qs[0], Flatten(q1));
    Pow256Of8();
    BigEndianInjective(|a|, |a'|, 8);
    FlattenInjective(p1, q1);
    assert p1[1] == q1[1] && p1[2] == q1[2] && p1[3] == q1[3];
    RawsInjective(n, n');
    LiftInjective(a, a');
    LiftInjective(c, c');
  }

  // ---- Specification ----

  /** `data` xored with the keystream of `key` and `nonce`. */
  function ApplyKeystream(ev: Valuation, key: seq<Byte>, nonce: Nonce, data: seq<bv8>): (r: seq<bv8>)
    ensures |r| == |data|
  {
    seq(|data|, i requires 0 <= i < |data| => data[i] ^ Val(ev, KeystreamByte(key, nonce, i)))
  }

  lemma KeystreamInvolution(ev: Valuation, key: seq<Byte>, nonce: Nonce, data: seq<bv8>)
    ensures ApplyKeystream(ev, key, nonce, ApplyKeystream(ev, key, nonce, data)) == data
  {
  }

  function Tag(key: Key, nonce: Nonce, aad: Slice, ciphertext: Slice): seq<Byte>
  {
    Hmac(MacKey(key), MacInput(nonce, aad, ciphertext))
  }

  function Seal(ev: Valuation, key: Key, nonce: Nonce, plaintext: Slice): Slice
  {
    ApplyKeystream(ev, EncKey(key), nonce, plaintext)
  }

  function Open(ev: Valuation, key: Key, nonce: Nonce, aad: Slice, ciphertext: Slice, tag: seq<Byte>): Result<Slice>
  {
    if |ciphertext| > CHACHA20_MAX_BYTES then Err(InvalidLength)
    else if tag != Tag(key, nonce, aad, ciphertext) then Err(VerificationFailed)
    else Ok(ApplyKeystream(ev, EncKey(key), nonce, ciphertext))
  }

  /** A valid tag determines the MAC key, the nonce, the associated data and the ciphertext. */
  lemma TagInjective(k: Key, n: Nonce, a: Slice, c: Slice, k': Key, n': Nonce, a': Slice, c': Slice)
    requires Tag(k, n, a, c) == Tag(k', n', a', c')
    ensures MacKey(k) == MacKey(k') && n == n' && a == a' && c == c'
  {
    HmacInjective(MacKey(k), MacInput(n, a, c), MacKey(k'), MacInput(n', a', c'));
    KeyBlockInjective(MacKey(k), MacKey(k'));
    MacInputInjective(n, a, c, n', a', c');
  }

  /** Opening inverts sealing exactly on the sealed tuple: any other nonce, aad or ciphertext is refused. */
  lemma OpenInvertsSeal(ev: Valuation, key: Key, nonce: Nonce, aad: Slice, plaintext: Slice,
                        nonce': Nonce, aad': Slice, ciphertext': Slice)
    requires |plaintext| <= CHACHA20_MAX_BYTES
    ensures var ciphertext := Seal(ev, key, nonce, plaintext);
            var result := Open(ev, key, nonce', aad', ciphertext', Tag(key, nonce, aad, ciphertext));
            if nonce' == nonce && aad' == aad && ciphertext' == ciphertext then result == Ok(plaintext) else result.Err?
  {
    var ciphertext := Seal(ev, key, nonce, plaintext);
    KeystreamInvolution(ev, EncKey(key), nonce, plaintext);
    if Tag(key, nonce, aad, ciphertext) == Tag(key, nonce', aad', ciphertext') {
      TagInjective(key, nonce, aad, ciphertext, key, nonce', aad', ciphertext');
    }
  }

  // ---- The buffers ----

  method XorKeystream(ev: Valuation, key: seq<Byte>, nonce: Nonce, buffer: array<bv8>)
    modifies buffer
    ensures buffer[..] == ApplyKeystream(ev, key, nonce, old(buffer[..]))
  {
    for i := 0 to buffer.Length
      invariant forall k :: 0 <= k < i ==> buffer[k] == old(buffer[k]) ^ Val(ev, KeystreamByte(key, nonce, k))
      invariant forall k :: i <= k < buffer.Length ==> buffer[k] == old(buffer[k])
    {
      buffer[i] := buffer[i] ^ Val(ev, KeystreamByte(key, nonce, i));
    }
  }

  method Fill(dst: array<bv8>, src: seq<bv8>)
    requires dst.Length == |src|
    modifies dst
    ensures dst[..] == src
  {
    for i := 0 to dst.Length
      invariant dst[..i] == src[..i]
    {
      dst[i] := src[i];
    }
  }

  /** Encrypts into `ciphertext`; a refused length writes nothing. */
  method Encrypt(ev: Valuation, key: Key, nonce: Nonce, aad: Slice, plaintext: Slice, ciphertext: array<bv8>)
      returns (r: Result<seq<Byte>>)
    modifies ciphertext
    ensures r.Ok? <==> ciphertext.Length == |plaintext| <= CHACHA20_MAX_BYTES
    ensures r.Ok? ==> ciphertext[..] == Seal(ev, key, nonce, plaintext)
    ensures r.Ok? ==> r.value == Tag(key, nonce, aad, ciphertext[..])
    ensures r.Err? ==> r.error == InvalidLength && ciphertext[..] == old(ciphertext[..])
  {
    if |plaintext| != ciphertext.Length || |plaintext| > CHACHA20_MAX_BYTES {
      return Err(InvalidLength);
    }
    Fill(ciphertext, plaintext);
    XorKeystream(ev, EncKey(key), nonce, ciphertext);
    r := Ok(Hmac(MacKey(key), MacInput(nonce, aad, ciphertext[..])));
  }

  /** Verifies before decrypting; a bad tag leaves the output buffer zeroized. */
  method Decrypt(ev: Valuation, key: Key, nonce: Nonce, aad: Slice, ciphertext: Slice, tag: seq<Byte>,
                 plaintext: array<bv8>) returns (r: Result<()>)
    modifies plaintext
    ensures plaintext.Length != |ciphertext| ==> r == Err(InvalidLength)
    ensures plaintext.Length == |ciphertext| ==> match Open(ev, key, nonce, aad, ciphertext, tag)
              case Ok(p) => r == Ok(()) && plaintext[..] == p
              case Err(e) => r == Err(e)
    ensures r == Err(InvalidLength) ==> plaintext[..] == old(plaintext[..])
    ensures r == Err(VerificationFailed) ==> plaintext[..] == seq(plaintext.Length, _ => 0)
  {
    if plaintext.Length != |ciphertext| || |ciphertext| > CHACHA20_MAX_BYTES {
      return Err(InvalidLength);
    }
    var expected := Hmac(MacKey(key), MacInput(nonce, aad, ciphertext));
    if tag != expected {
      Fill(plaintext, seq(plaintext.Length, _ => 0));
      return Err(VerificationFailed);
    }
    Fill(plaintext, ciphertext);
    XorKeystream(ev, EncKey(key), nonce, plaintext);
    r := Ok(());
  }
}
