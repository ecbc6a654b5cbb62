/**
 What the two sides of the authenticated handshake hash, sign and MAC, byte for byte, and that each of
 these strings says one thing only.
 */
module AuthHandshake {
  import opened Words
  import opened SymbolicCrypto

  const AUTH_PROTOCOL_VERSION: u8 := 2
  const AUTH_SUITE := "ML-KEM-1024+X25519;HKDF-SHA384;ChaCha20+HMAC-SHA384;ML-DSA-87;HMAC-SHA384-KC"
  const CONTEXT_ENCAPSULATING_SIDE := "ShawnCore-auth-v2 encapsulating side"
  const CONTEXT_KEYGEN_SIDE := "ShawnCore-auth-v2 key-generating side"
  const CONFIRM_LABEL_ENCAPSULATING_SIDE := "ShawnCore-auth-v2 confirm encapsulating side"
  const CONFIRM_LABEL_KEYGEN_SIDE := "ShawnCore-auth-v2 confirm key-generating side"
  const IDENTITY_LABEL := "ShawnCore-auth-v2 identity"
  const BINDING_LABEL := "ShawnCore-auth-v2 binding"
  const TRANSCRIPT_LABEL := "ShawnCore-auth-v2 transcript"
  const ENCAPSULATOR_DIGEST_LABEL := "ShawnCore-auth-v2 encapsulator digest"
  const KEYGEN_DIGEST_LABEL := "ShawnCore-auth-v2 key-generator digest"
  const INNER_TRANSCRIPT_LABEL := "ShawnCore-v1.3-hybrid-handshake"

  // ---- Hashing of parts ----

  function HashParts(parts: seq<seq<Byte>>): (r: seq<Byte>)
    ensures |r| == 48
  {
    Hash(Flatten(parts))
  }

  method Sha384(parts: seq<seq<Byte>>) returns (out: seq<Byte>)
    ensures out == HashParts(parts)
  {
    var absorbed: seq<Byte> := [];
    for i := 0 to |parts|
      invariant absorbed == Flatten(parts[..i])
    {
      FlattenAppend(parts[..i], parts[i]);
      assert parts[..i + 1] == parts[..i] + [parts[i]];
      absorbed := absorbed + parts[i];
    }
    assert parts[..|parts|] == parts;
    out := Hash(absorbed);
  }

  /** Equal hashes of parts that agree on every length but the last come from equal parts. */
  lemma HashPartsInjective(ps: seq<seq<Byte>>, qs: seq<seq<Byte>>)
    requires HashParts(ps) == HashParts(qs)
    requires |ps| == |qs| && forall i :: 0 <= i < |ps| - 1 ==> |ps[i]| == |qs[i]|
    ensures ps == qs
  {
    HashInjective(Flatten(ps), Flatten(qs));
    FlattenInjective(ps, qs);
  }

  // ---- The encodings ----

  function IdentityFingerprint(vk: VerifyingKey): (r: seq<Byte>)
    ensures |r| == 48
  {
    HashParts([Ascii(IDENTITY_LABEL), VkBytes(vk)])
  }

  function BindingParts(ek: MlKemPublic, x: X25519Public, keygenId: seq<Byte>, encapId: seq<Byte>,
                        appInfo: seq<Byte>): seq<seq<Byte>>
  {
    [Ascii(BINDING_LABEL), [Raw(AUTH_PROTOCOL_VERSION)], BigEndian(|AUTH_SUITE|, 2), Ascii(AUTH_SUITE),
     EkBytes(ek), PointBytes(x), keygenId, encapId, BigEndian(|appInfo|, 4), appInfo]
  }

  function HandshakeBinding(ek: MlKemPublic, x: X25519Public, keygenId: seq<Byte>, encapId: seq<Byte>,
                            appInfo: seq<Byte>): Result<seq<Byte>>
  {
    if |appInfo| >= 0x1_0000_0000 then Err(InvalidLength)
    else Ok(HashParts(BindingParts(ek, x, keygenId, encapId, appInfo)))
  }

  function TranscriptHash(binding: seq<Byte>, ct: MlKemCiphertext, encapX: X25519Public): (r: seq<Byte>)
    ensures |r| == 48
  {
    HashParts([Ascii(TRANSCRIPT_LABEL), binding, CtBytes(ct), PointBytes(encapX)])
  }

  function EncapsulatorDigest(transcript: seq<Byte>, tag: seq<Byte>): (r: seq<Byte>)
    ensures |r| == 48
  {
    HashParts([Ascii(ENCAPSULATOR_DIGEST_LABEL), transcript, tag])
  }

  function KeygenDigest(digest: seq<Byte>, tag: seq<Byte>): (r: seq<Byte>)
    ensures |r| == 48
  {
    HashParts([Ascii(KEYGEN_DIGEST_LABEL), digest, tag])
  }

  /** The session-key info shared by both handshakes. */
  function HandshakeTranscript(ct: MlKemCiphertext, senderX: X25519Public, info: seq<Byte>): (r: seq<Byte>)
    ensures |r| == 48
  {
    HashParts([Ascii(INNER_TRANSCRIPT_LABEL), CtBytes(ct), PointBytes(senderX), info])
  }

  /** A key-confirmation tag; the label and the digest must fit the 128-byte message buffer. */
  function ConfirmationTag(key: seq<Byte>, role: string, digest: seq<Byte>): Result<seq<Byte>> {
    if |role| + |digest| > 128 then Err(InvalidLength) else Ok(Hmac(key, Ascii(role) + digest))
  }

  method ComputeConfirmationTag(key: seq<Byte>, role: string, digest: seq<Byte>) returns (r: Result<seq<Byte>>)
    requires |digest| == 48
    ensures r == ConfirmationTag(key, role, digest)
  {
    var message := new Byte[128](_ => Raw(0));
    var used := |role| + 48;
    if used > message.Length {
      return Err(InvalidLength);
    }
    var text := Ascii(role);
    for i := 0 to |role|
      invariant message[..i] == text[..i]
    {
      message[i] := text[i];
    }
    for i := 0 to 48
      invariant message[..|role| + i] == text + digest[..i]
    {
      message[|role| + i] := digest[i];
    }
    assert digest[..48] == digest;
    r := Ok(Hmac(key, message[..used]));
  }

  // ---- Unambiguity ----

  lemma IdentityInjective(a: VerifyingKey, b: VerifyingKey)
    requires IdentityFingerprint(a) == IdentityFingerprint(b)
    ensures a == b
  {
    var ps, qs := [Ascii(IDENTITY_LABEL), VkBytes(a)], [Ascii(IDENTITY_LABEL), VkBytes(b)];
    HashPartsInjective(ps, qs);
    assert ps[1] == qs[1];
    WireInjective();
  }

  /** The binding determines every field, for every length of the application info. */
  lemma BindingInjective(ek: MlKemPublic, x: X25519Public, k: seq<Byte>, e: seq<Byte>, app: seq<Byte>,
                         ek': MlKemPublic, x': X25519Public, k': seq<Byte>, e': seq<Byte>, app': seq<Byte>)
    requires |k| == |k'| == 48 && |e| == |e'| == 48
    requires HandshakeBinding(ek, x, k, e, app).Ok?
    requires HandshakeBinding(ek, x, k, e, app) == HandshakeBinding(ek', x', k', e', app')
    ensures ek == ek' && x == x' && k == k' && e == e' && app == app'
  {
    var ps, qs := BindingParts(ek, x, k, e, app), BindingParts(ek', x', k', e', app');
    HashPartsInjective(ps, qs);
    assert ps[4] == qs[4] && ps[5] == qs[5] && ps[6] == qs[6] && ps[7] == qs[7] && ps[9] == qs[9];
    WireInjective();
  }

  lemma TranscriptInjective(b: seq<Byte>, ct: MlKemCiphertext, x: X25519Public,
                            b': seq<Byte>, ct': MlKemCiphertext, x': X25519Public)
    requires |b| == |b'|
    requires TranscriptHash(b, ct, x) == TranscriptHash(b', ct', x')
    ensures b == b' && ct == ct' && x == x'
  {
    var ps := [Ascii(TRANSCRIPT_LABEL), b, CtBytes(ct), PointBytes(x)];
    var qs := [Ascii(TRANSCRIPT_LABEL), b', CtBytes(ct'), PointBytes(x')];
    HashPartsInjective(ps, qs);
    assert ps[1] == qs[1] && ps[2] == qs[2] && ps[3] == qs[3];
    WireInjective();
  }

  lemma EncapsulatorDigestInjective(t: seq<Byte>, tag: seq<Byte>, t': seq<Byte>, tag': seq<Byte>)
    requires |t| == |t'| && EncapsulatorDigest(t, tag) == EncapsulatorDigest(t', tag')
    ensures t == t' && tag == tag'
  {
    var ps, qs := [Ascii(ENCAPSULATOR_DIGEST_LABEL), t, tag], [Ascii(ENCAPSULATOR_DIGEST_LABEL), t', tag'];
    HashPartsInjective(ps, qs);
    assert ps[1] == qs[1] && ps[2] == qs[2];
  }

  lemma KeygenDigestInjective(d: seq<Byte>, tag: seq<Byte>, d': seq<Byte>, tag': seq<Byte>)
    requires |d| == |d'| && KeygenDigest(d, tag) == KeygenDigest(d', tag')
    ensures d == d' && tag == tag'
  {
    var ps, qs := [Ascii(KEYGEN_DIGEST_LABEL), d, tag], [Ascii(KEYGEN_DIGEST_LABEL), d', tag'];
    HashPartsInjective(ps, qs);
    assert ps[1] == qs[1] && ps[2] == qs[2];
  }

  /** The session-key info determines ciphertext, X25519 key and the info of the call. */
  lemma InnerInjective(ct: MlKemCiphertext, x: X25519Public, info: seq<Byte>,
                       ct': MlKemCiphertext, x': X25519Public, info': seq<Byte>)
    requires HandshakeTranscript(ct, x, info) == HandshakeTranscript(ct', x', info')
    ensures ct == ct' && x == x' && info == info'
  {
    var ps := [Ascii(INNER_TRANSCRIPT_LABEL), CtBytes(ct), PointBytes(x), info];
    var qs := [Ascii(INNER_TRANSCRIPT_LABEL), CtBytes(ct'), PointBytes(x'), info'];
    HashPartsInjective(ps, qs);
    assert ps[1] == qs[1] && ps[2] == qs[2] && ps[3] == qs[3];
    WireInjective();
  }

  /** A tag under a 48-byte key determines the key and the digest it confirms. */
  lemma ConfirmationTagInjective(k: seq<Byte>, d: seq<Byte>, k': seq<Byte>, d': seq<Byte>, role: string)
    requires |k| == |k'| == 48 && |d| == |d'|
    requires ConfirmationTag(k, role, d).Ok? && ConfirmationTag(k, role, d) == ConfirmationTag(k', role, d')
    ensures k == k' && d == d'
  {
    HmacInjective(k, Ascii(role) + d, k', Ascii(role) + d');
    KeyBlockInjective(k, k');
    SplitConcat(Ascii(role), d, Ascii(role), d');
  }

  function Labels(): seq<string> {
    [IDENTITY_LABEL, BINDING_LABEL, TRANSCRIPT_LABEL, ENCAPSULATOR_DIGEST_LABEL, KEYGEN_DIGEST_LABEL,
     INNER_TRANSCRIPT_LABEL]
  }

  lemma LabelsDiverge(i: nat, j: nat)
    requires i < |Labels()| && j < |Labels()| && i != j
    ensures exists k :: 0 <= k < |Labels()[i]| && k < |Labels()[j]| && Ascii(Labels()[i])[k] != Ascii(Labels()[j])[k]
  {
    var k := if i == 5 || j == 5 then 10 else 18;
    assert Ascii(Labels()[i])[k] != Ascii(Labels()[j])[k];
  }

  /** Hash preimages under different labels never coincide, whatever parts follow them. */
  lemma LabelledPreimagesDisjoint(i: nat, j: nat, ps: seq<seq<Byte>>, qs: seq<seq<Byte>>)
    requires i < |Labels()| && j < |Labels()| && i != j
    ensures HashParts([Ascii(Labels()[i])] + ps) != HashParts([Ascii(Labels()[j])] + qs)
  {
    var a, b := Ascii(Labels()[i]), Ascii(Labels()[j]);
    LabelsDiverge(i, j);
    var k :| 0 <= k < |a| && k < |b| && a[k] != b[k];
    assert ([a] + ps)[1..] == ps && ([b] + qs)[1..] == qs;
    assert Flatten([a] + ps) == a + Flatten(ps) && Flatten([b] + qs) == b + Flatten(qs);
    assert (a + Flatten(ps))[k] == a[k] && (b + Flatten(qs))[k] == b[k];
    if HashParts([a] + ps) == HashParts([b] + qs) {
      HashInjective(Flatten([a] + ps), Flatten([b] + qs));
    }
  }
}
