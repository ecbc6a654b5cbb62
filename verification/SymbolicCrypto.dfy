/**
 Symbolic cryptography over bytes.

 Every byte the protocol handles is either a literal (`Raw`) or names the position it has in the
 output of a primitive. Outputs of distinct primitives, or of one primitive on distinct inputs, are
 therefore distinct terms, while concatenation, slicing and length prefixes stay exactly what the
 code does with byte strings. A `Valuation` gives the derived bytes their run-time values; nothing
 proved here depends on which one is chosen.
 */
module SymbolicCrypto {
  import opened Words

  datatype CryptoError =
    | InvalidState
    | InvalidLength
    | VerificationFailed
    | KeyConfirmationFailed
    | EntropyStarvation
    | EntropyBusy

  datatype Result<+T> = Ok(value: T) | Err(error: CryptoError)

  // ---- Keys and messages as the wrappers decode them ----

  /** `Ek(seed)` is the encapsulation key of the decapsulation key grown from `seed`. */
  datatype MlKemPublic = Ek(seed: seq<u8>) | EkForeign(id: nat)

  datatype MlKemCiphertext = Ct(ek: MlKemPublic, coins: seq<u8>) | CtForeign(id: nat)

  /** `Point` is a public key of known secret; `LowOrder` covers the non-contributory encodings. */
  datatype X25519Public = Point(secret: seq<u8>) | PointForeign(id: nat) | LowOrder(id: nat)

  datatype SigningKey = SigningKey(seed: seq<u8>)

  datatype VerifyingKey = Vk(seed: seq<u8>) | VkForeign(id: nat)

  /** A signature names what it signs; `blinding` tells apart several signatures on one message. */
  datatype Signature =
    | Signed(key: SigningKey, context: string, message: seq<Byte>, blinding: nat)
    | Noise(id: nat)

  datatype KemSecret = Shared(ek: MlKemPublic, coins: seq<u8>) | Rejected(seed: seq<u8>, ct: MlKemCiphertext)

  /** The unordered pair of secrets makes Diffie-Hellman commute. */
  datatype DhSecret = Dh(secrets: multiset<seq<u8>>) | DhForeign(secret: seq<u8>, id: nat)

  datatype Byte =
    | Raw(value: u8)
    | EkByte(ek: MlKemPublic, at: int)
    | CtByte(ct: MlKemCiphertext, at: int)
    | PointByte(point: X25519Public, at: int)
    | VkByte(vk: VerifyingKey, at: int)
    | KemByte(kem: KemSecret, at: int)
    | DhByte(dh: DhSecret, at: int)
    | HashByte(preimage: seq<Byte>, at: int)
    | HmacByte(block: seq<Byte>, message: seq<Byte>, at: int)
    | OkmByte(prk: seq<Byte>, info: seq<Byte>, at: int)
    | KeystreamByte(key: seq<Byte>, nonce: seq<u8>, at: int)

  type Valuation = Byte -> bv8

  function Val(ev: Valuation, b: Byte): bv8 {
    if b.Raw? then b.value as bv8 else ev(b)
  }

  function Vals(ev: Valuation, s: seq<Byte>): (r: seq<bv8>)
    ensures |r| == |s|
  {
    seq(|s|, i requires 0 <= i < |s| => Val(ev, s[i]))
  }

  // ---- Literal byte strings ----

  function Raws(s: seq<u8>): (r: seq<Byte>)
    ensures |r| == |s|
  {
    seq(|s|, i requires 0 <= i < |s| => Raw(s[i]))
  }

  /** Packet data as it enters a hash or a MAC. */
  function Lift(s: seq<bv8>): (r: seq<Byte>)
    ensures |r| == |s|
  {
    seq(|s|, i requires 0 <= i < |s| => Raw(s[i] as int))
  }

  function Zeros(n: nat): (r: seq<Byte>)
    ensures |r| == n
  {
    seq(n, _ => Raw(0))
  }

  function Ascii(s: string): (r: seq<Byte>)
    ensures |r| == |s|
  {
    seq(|s|, i requires 0 <= i < |s| => Raw(s[i] as int % 256))
  }

  /** `to_be_bytes` of an unsigned integer of `width` bytes. */
  function BigEndian(n: nat, width: nat): (r: seq<Byte>)
    ensures |r| == width
    decreases width
  {
    if width == 0 then [] else BigEndian(n / 256, width - 1) + [Raw(n % 256)]
  }

  // ---- Wire encodings ----

  function EkBytes(ek: MlKemPublic): (r: seq<Byte>) ensures |r| == 1568 { seq(1568, i => EkByte(ek, i)) }
  function CtBytes(ct: MlKemCiphertext): (r: seq<Byte>) ensures |r| == 1568 { seq(1568, i => CtByte(ct, i)) }
  function PointBytes(x: X25519Public): (r: seq<Byte>) ensures |r| == 32 { seq(32, i => PointByte(x, i)) }
  function VkBytes(vk: VerifyingKey): (r: seq<Byte>) ensures |r| == 2592 { seq(2592, i => VkByte(vk, i)) }
  function KemBytes(s: KemSecret): (r: seq<Byte>) ensures |r| == 32 { seq(32, i => KemByte(s, i)) }
  function DhBytes(s: DhSecret): (r: seq<Byte>) ensures |r| == 32 { seq(32, i => DhByte(s, i)) }

  // ---- Primitives ----

  function Hash(preimage: seq<Byte>): (r: seq<Byte>)
    ensures |r| == 48
  {
    seq(48, i => HashByte(preimage, i))
  }

  /** The 128-byte HMAC-SHA384 key block of section 2 of RFC 2104: long keys are hashed, short keys zero-padded. */
  function KeyBlock(key: seq<Byte>): (r: seq<Byte>)
    ensures |r| == 128
  {
    if |key| > 128 then Hash(key) + Zeros(80) else key + Zeros(128 - |key|)
  }

  function Hmac(key: seq<Byte>, message: seq<Byte>): (r: seq<Byte>)
    ensures |r| == 48
  {
    seq(48, i => HmacByte(KeyBlock(key), message, i))
  }

  /** HKDF-Expand (section 2.3 of RFC 5869). */
  function Expand(prk: seq<Byte>, info: seq<Byte>, length: nat): (r: seq<Byte>)
    ensures |r| == length
  {
    seq(length, i => OkmByte(prk, info, i))
  }

  function VerifyingKeyOf(key: SigningKey): VerifyingKey { Vk(key.seed) }

  function Sign(key: SigningKey, message: seq<Byte>, context: string): Signature {
    Signed(key, context, message, 0)
  }

  predicate Verifies(vk: VerifyingKey, message: seq<Byte>, context: string, sig: Signature) {
    sig.Signed? && VerifyingKeyOf(sig.key) == vk && sig.message == message && sig.context == context
  }

  function Encapsulate(ek: MlKemPublic, coins: seq<u8>): (KemSecret, MlKemCiphertext) {
    (Shared(ek, coins), Ct(ek, coins))
  }

  /** Decapsulation inverts encapsulation under the matching key and rejects implicitly otherwise. */
  function Decapsulate(seed: seq<u8>, ct: MlKemCiphertext): KemSecret {
    if ct.Ct? && ct.ek == Ek(seed) then Shared(ct.ek, ct.coins) else Rejected(seed, ct)
  }

  function DiffieHellman(secret: seq<u8>, peer: X25519Public): Result<DhSecret> {
    match peer
    case Point(other) => Ok(Dh(multiset{secret, other}))
    case PointForeign(id) => Ok(DhForeign(secret, id))
    case LowOrder(_) => Err(InvalidState)
  }

  // ---- Concatenated parts, as the hashing helper receives them ----

  function Flatten(parts: seq<seq<Byte>>): seq<Byte> {
    if parts == [] then [] else parts[0] + Flatten(parts[1..])
  }

  lemma SplitConcat<T>(a: seq<T>, b: seq<T>, c: seq<T>, d: seq<T>)
    requires a + b == c + d && |a| == |c|
    ensures a == c && b == d
  {
    assert a == (a + b)[..|a|] == (c + d)[..|c|] == c;
    assert b == (a + b)[|a|..] == (c + d)[|c|..] == d;
  }

  lemma {:induction false} FlattenAppend(parts: seq<seq<Byte>>, part: seq<Byte>)
    ensures Flatten(parts + [part]) == Flatten(parts) + part
  {
    if parts == [] {
      assert (parts + [part])[1..] == [];
    } else {
      assert (parts + [part])[1..] == parts[1..] + [part];
      FlattenAppend(parts[1..], part);
    }
  }

  /** Two part lists that agree on every length but the last are told apart by their concatenation. */
  lemma {:induction false} FlattenInjective(ps: seq<seq<Byte>>, qs: seq<seq<Byte>>)
    requires |ps| == |qs|
    requires forall i :: 0 <= i < |ps| - 1 ==> |ps[i]| == |qs[i]|
    requires Flatten(ps) == Flatten(qs)
    ensures ps == qs
  {
    if |ps| == 1 {
      assert Flatten(ps) == ps[0] && Flatten(qs) == qs[0];
    } else if |ps| > 1 {
      SplitConcat(ps[0], Flatten(ps[1..]), qs[0], Flatten(qs[1..]));
      FlattenInjective(ps[1..], qs[1..]);
      assert ps == [ps[0]] + ps[1..] && qs == [qs[0]] + qs[1..];
    }
  }

  // ---- Injectivity of the primitives ----

  lemma HashInjective(p: seq<Byte>, q: seq<Byte>)
    requires Hash(p) == Hash(q)
    ensures p == q
  {
    assert Hash(p)[0] == HashByte(p, 0) && Hash(q)[0] == HashByte(q, 0);
  }

  lemma HmacInjective(k: seq<Byte>, m: seq<Byte>, k': seq<Byte>, m': seq<Byte>)
    requires Hmac(k, m) == Hmac(k', m')
    ensures KeyBlock(k) == KeyBlock(k') && m == m'
  {
    assert Hmac(k, m)[0] == HmacByte(KeyBlock(k), m, 0);
    assert Hmac(k', m')[0] == HmacByte(KeyBlock(k'), m', 0);
  }

  /** Keys of one length up to 128 bytes are recovered from their padded block. */
  lemma KeyBlockInjective(k: seq<Byte>, k': seq<Byte>)
    requires |k| == |k'| <= 128 && KeyBlock(k) == KeyBlock(k')
    ensures k == k'
  {
    SplitConcat(k, Zeros(128 - |k|), k', Zeros(128 - |k'|));
  }

  lemma WireInjective()
    ensures forall a, b :: EkBytes(a) == EkBytes(b) ==> a == b
    ensures forall a, b :: CtBytes(a) == CtBytes(b) ==> a == b
    ensures forall a, b :: PointBytes(a) == PointBytes(b) ==> a == b
    ensures forall a, b :: VkBytes(a) == VkBytes(b) ==> a == b
  {
    forall a, b | EkBytes(a) == EkBytes(b) ensures a == b { assert EkBytes(a)[0] == EkBytes(b)[0]; }
    forall a, b | CtBytes(a) == CtBytes(b) ensures a == b { assert CtBytes(a)[0] == CtBytes(b)[0]; }
    forall a, b | PointBytes(a) == PointBytes(b) ensures a == b { assert PointBytes(a)[0] == PointBytes(b)[0]; }
    forall a, b | VkBytes(a) == VkBytes(b) ensures a == b { assert VkBytes(a)[0] == VkBytes(b)[0]; }
  }

  lemma {:induction false} BigEndianInjective(m: nat, n: nat, width: nat)
    requires m < Pow256(width) && n < Pow256(width)
    requires BigEndian(m, width) == BigEndian(n, width)
    ensures m == n
  {
    if width > 0 {
      SplitConcat(BigEndian(m / 256, width - 1), [Raw(m % 256)],
                  BigEndian(n / 256, width - 1), [Raw(n % 256)]);
      assert [Raw(m % 256)][0] == [Raw(n % 256)][0];
      BigEndianInjective(m / 256, n / 256, width - 1);
    }
  }

  function Pow256(n: nat): nat { if n == 0 then 1 else 256 * Pow256(n - 1) }

  lemma RawsInjective(a: seq<u8>, b: seq<u8>)
    requires Raws(a) == Raws(b)
    ensures a == b
  {
    assert |a| == |b|;
    forall i | 0 <= i < |a| ensures a[i] == b[i] {
      assert Raws(a)[i] == Raws(b)[i];
    }
  }

  lemma LiftInjective(a: seq<bv8>, b: seq<bv8>)
    requires Lift(a) == Lift(b)
    ensures a == b
  {
    assert |a| == |b|;
    forall i | 0 <= i < |a| ensures a[i] == b[i] {
      assert Lift(a)[i] == Lift(b)[i];
      ByteValueInjective(a[i], b[i]);
    }
  }
}
