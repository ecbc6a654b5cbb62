/**
 The session manager's operations as functions of the session state.

 Each operation returns the state it leaves and what it reports. `ev` gives derived bytes their
 run-time values, which only the checksums and the keystream look at.
 */
module Sessions {
  import opened Words
  import opened SymbolicCrypto
  import opened Wrappers
  import opened AuthHandshake
  import opened HybridKdf
  import opened ReplayWindow
  import opened Aead
  import opened KeyChecksum

  const U64_MAX: int := 0xFFFF_FFFF_FFFF_FFFF

  /** What `confirm_peer` must check. */
  datatype Pending = Pending(digest: seq<Byte>, peerIdentity: seq<Byte>, confirmationKey: seq<Byte>)

  datatype Session = Session(
    kemSeed: Option<seq<u8>>,
    xSecret: Option<seq<u8>>,
    txKey: Option<Key>,
    rxKey: Option<Key>,
    txSum: bv32,
    rxSum: bv32,
    established: bool,
    txCounter: u64,
    window: Window,
    pending: Option<Pending>)

  datatype Output =
    | Unit
    | PublicKeys(ek: MlKemPublic, x: X25519Public)
    | Reply(ct: MlKemCiphertext, x: X25519Public)
    | SignedReply(ct: MlKemCiphertext, x: X25519Public, signature: Signature, tag: seq<Byte>)
    | Proof(signature: Signature, tag: seq<Byte>)
    | Issued(nonce: Nonce)
    | Packet(ciphertext: Slice, nonce: Nonce, tag: seq<Byte>)
    | Plain(plaintext: Slice)

  datatype Outcome = Outcome(state: Session, out: Result<Output>)

  function New(): Session {
    Session(None, None, None, None, 0, 0, false, 0, Empty(), None)
  }

  function KeySum(ev: Valuation, key: Key): bv32 { Checksum(Vals(ev, key)) }

  /** A session just holding `keys`: counters and window at zero, no pending secrets. */
  function Install(ev: Valuation, keys: Keys): Session {
    Session(None, None, Some(keys.tx), Some(keys.rx), KeySum(ev, keys.tx), KeySum(ev, keys.rx), true, 0, Empty(), None)
  }

  predicate Degenerate(entropy: seq<u8>) {
    (forall i :: 0 <= i < |entropy| ==> entropy[i] == 0) || (forall i :: 0 <= i < |entropy| ==> entropy[i] == 255)
  }

  // ---- Key generation and the unauthenticated handshake ----

  function Initiate(s: Session, entropy: seq<u8>): Outcome
    requires |entropy| == 96
  {
    if Degenerate(entropy) then Outcome(s, Err(InvalidState))
    else
      var (kem, x) := (entropy[..64], entropy[64..]);
      Outcome(New().(kemSeed := Some(kem), xSecret := Some(x)), Ok(PublicKeys(Ek(kem), Point(x))))
  }

  /** Both HKDF outputs of the key-generating side, from its secrets and the peer's message. */
  function DeriveAsKeygen(kemSeed: seq<u8>, dh: DhSecret, ct: MlKemCiphertext, peerX: X25519Public,
                          salt: seq<Byte>, info: seq<Byte>): (seq<Byte>, seq<Byte>)
  {
    (Extract(salt, KemBytes(Decapsulate(kemSeed, ct)), DhBytes(dh)), HandshakeTranscript(ct, peerX, info))
  }

  function FinalizePlain(ev: Valuation, s: Session, peerX: X25519Public, ct: MlKemCiphertext,
                         salt: seq<Byte>, info: seq<Byte>): Outcome
  {
    if s.kemSeed.None? || s.xSecret.None? then Outcome(s, Err(InvalidState))
    else match DiffieHellman(s.xSecret.value, peerX)
      case Err(e) => Outcome(New(), Err(e))
      case Ok(dh) =>
        var (prk, inner) := DeriveAsKeygen(s.kemSeed.value, dh, ct, peerX, salt, info);
        Outcome(Install(ev, KeygenSplit(SessionMaterial(prk, inner))), Ok(Unit))
  }

  /** What an encapsulation derives before it touches the session. */
  datatype Encapsulation = Encapsulation(prk: seq<Byte>, inner: seq<Byte>, ct: MlKemCiphertext, x: X25519Public)

  function Encapsulated(ek: MlKemPublic, peerX: X25519Public, entropy: seq<u8>, salt: seq<Byte>, info: seq<Byte>)
      : Result<Encapsulation>
    requires |entropy| == 64
  {
    if Degenerate(entropy) then Err(InvalidState)
    else
      var (shared, ct) := Encapsulate(ek, entropy[..32]);
      var x := Point(entropy[32..]);
      match DiffieHellman(entropy[32..], peerX)
      case Err(e) => Err(e)
      case Ok(dh) =>
        Ok(Encapsulation(Extract(salt, KemBytes(shared), DhBytes(dh)), HandshakeTranscript(ct, x, info), ct, x))
  }

  function EncapsulatePlain(ev: Valuation, s: Session, ek: MlKemPublic, peerX: X25519Public, entropy: seq<u8>,
                            salt: seq<Byte>, info: seq<Byte>): Outcome
    requires |entropy| == 64
  {
    match Encapsulated(ek, peerX, entropy, salt, info)
    case Err(e) => Outcome(s, Err(e))
    case Ok(enc) => Outcome(Install(ev, EncapsulatorSplit(SessionMaterial(enc.prk, enc.inner))),
                            Ok(Reply(enc.ct, enc.x)))
  }

  // ---- The authenticated handshake ----

  function EncapsulateAuth(ev: Valuation, s: Session, own: SigningKey, peer: VerifyingKey, ek: MlKemPublic,
                           peerX: X25519Public, entropy: seq<u8>, salt: seq<Byte>, appInfo: seq<Byte>): Outcome
    requires |entropy| == 64
  {
    var ownId := IdentityFingerprint(VerifyingKeyOf(own));
    var peerId := IdentityFingerprint(peer);
    match HandshakeBinding(ek, peerX, peerId, ownId, appInfo)
    case Err(e) => Outcome(s, Err(e))
    case Ok(binding) =>
      match Encapsulated(ek, peerX, entropy, salt, binding)
      case Err(e) => Outcome(s, Err(e))
      case Ok(enc) =>
        var material := ConfirmationMaterial(enc.prk, enc.inner);
        var transcript := TranscriptHash(binding, enc.ct, enc.x);
        match ConfirmationTag(EncapsulatorConfirmationKey(material), CONFIRM_LABEL_ENCAPSULATING_SIDE, transcript)
        case Err(e) => Outcome(New(), Err(e))
        case Ok(tag) =>
          var digest := EncapsulatorDigest(transcript, tag);
          Outcome(Install(ev, EncapsulatorSplit(SessionMaterial(enc.prk, enc.inner)))
                    .(pending := Some(Pending(digest, peerId, KeygenConfirmationKey(material)))),
                  Ok(SignedReply(enc.ct, enc.x, Sign(own, digest, CONTEXT_ENCAPSULATING_SIDE), tag)))
  }

  /** The digest the key-generating side reconstructs and checks the peer's signature against. */
  function ExpectedPeerDigest(kemSeed: seq<u8>, xSecret: seq<u8>, own: SigningKey, peer: VerifyingKey,
                              peerX: X25519Public, ct: MlKemCiphertext, tag: seq<Byte>, appInfo: seq<Byte>)
      : Result<(seq<Byte>, seq<Byte>, seq<Byte>)>
  {
    match HandshakeBinding(Ek(kemSeed), Point(xSecret), IdentityFingerprint(VerifyingKeyOf(own)),
                           IdentityFingerprint(peer), appInfo)
    case Err(e) => Err(e)
    case Ok(binding) =>
      var transcript := TranscriptHash(binding, ct, peerX);
      Ok((binding, transcript, EncapsulatorDigest(transcript, tag)))
  }

  /** What the steps after authentication produce: this side's proof and the session keys. */
  datatype Finalized = Finalized(signature: Signature, tag: seq<Byte>, keys: Keys)

  function CompleteFinalize(kemSeed: seq<u8>, xSecret: seq<u8>, own: SigningKey, peerX: X25519Public,
                            ct: MlKemCiphertext, peerTag: seq<Byte>, salt: seq<Byte>,
                            binding: seq<Byte>, transcript: seq<Byte>, peerDigest: seq<Byte>): Result<Finalized>
  {
    match DiffieHellman(xSecret, peerX)
    case Err(e) => Err(e)
    case Ok(dh) =>
      var (prk, inner) := DeriveAsKeygen(kemSeed, dh, ct, peerX, salt, binding);
      var material := ConfirmationMaterial(prk, inner);
      match ConfirmationTag(EncapsulatorConfirmationKey(material), CONFIRM_LABEL_ENCAPSULATING_SIDE, transcript)
      case Err(e) => Err(e)
      case Ok(expected) =>
        if expected != peerTag then Err(KeyConfirmationFailed)
        else match ConfirmationTag(KeygenConfirmationKey(material), CONFIRM_LABEL_KEYGEN_SIDE, peerDigest)
          case Err(e) => Err(e)
          case Ok(tag) =>
            Ok(Finalized(Sign(own, KeygenDigest(peerDigest, tag), CONTEXT_KEYGEN_SIDE), tag,
                         KeygenSplit(SessionMaterial(prk, inner))))
  }

  function FinalizeAuth(ev: Valuation, s: Session, own: SigningKey, peer: VerifyingKey, peerX: X25519Public,
                        ct: MlKemCiphertext, signature: Signature, peerTag: seq<Byte>,
                        salt: seq<Byte>, appInfo: seq<Byte>): Outcome
  {
    if s.kemSeed.None? || s.xSecret.None? then Outcome(s, Err(InvalidState))
    else match ExpectedPeerDigest(s.kemSeed.value, s.xSecret.value, own, peer, peerX, ct, peerTag, appInfo)
      case Err(e) => Outcome(s, Err(e))
      case Ok((binding, transcript, peerDigest)) =>
        if !Verifies(peer, peerDigest, CONTEXT_ENCAPSULATING_SIDE, signature) then Outcome(s, Err(VerificationFailed))
        else match CompleteFinalize(s.kemSeed.value, s.xSecret.value, own, peerX, ct, peerTag, salt, binding,
                                    transcript, peerDigest)
          case Err(e) => Outcome(New(), Err(e))
          case Ok(f) => Outcome(Install(ev, f.keys), Ok(Proof(f.signature, f.tag)))
  }

  function ConfirmPeer(s: Session, peer: VerifyingKey, signature: Signature, peerTag: seq<Byte>): Outcome {
    if s.pending.None? then Outcome(s, Err(InvalidState))
    else
      var p := s.pending.value;
      if IdentityFingerprint(peer) != p.peerIdentity then Outcome(s, Err(VerificationFailed))
      else if !Verifies(peer, KeygenDigest(p.digest, peerTag), CONTEXT_KEYGEN_SIDE, signature) then
        Outcome(s, Err(VerificationFailed))
      else match ConfirmationTag(p.confirmationKey, CONFIRM_LABEL_KEYGEN_SIDE, p.digest)
        case Err(e) => Outcome(New(), Err(e))
        case Ok(tag) =>
          if tag == peerTag then Outcome(s.(pending := None), Ok(Unit)) else Outcome(New(), Err(KeyConfirmationFailed))
  }

  // ---- Traffic ----

  function NextNonce(s: Session): Outcome {
    if s.txCounter == U64_MAX then Outcome(s, Err(InvalidState))
    else Outcome(s.(txCounter := s.txCounter + 1), Ok(Issued(NonceOf(s.txCounter))))
  }

  function CommitNonce(s: Session, nonce: Nonce): Outcome {
    Outcome(s.(window := Commit(s.window, SequenceOf(nonce))), Ok(Unit))
  }

  predicate CarriesTraffic(s: Session) { s.established && s.pending.None? }

  function EncryptPacket(ev: Valuation, s: Session, aad: Slice, plaintext: Slice, room: nat): Outcome {
    if !CarriesTraffic(s) || room != |plaintext| then Outcome(s, Err(InvalidState))
    else if s.txCounter == U64_MAX then Outcome(s, Err(InvalidState))
    else if s.txKey.None? then Outcome(s, Err(InvalidState))
    else if |plaintext| > CHACHA20_MAX_BYTES then Outcome(s, Err(InvalidLength))
    else
      var (key, nonce) := (s.txKey.value, NonceOf(s.txCounter));
      var ciphertext := Seal(ev, key, nonce, plaintext);
      Outcome(s.(txCounter := s.txCounter + 1), Ok(Packet(ciphertext, nonce, Tag(key, nonce, aad, ciphertext))))
  }

  function DecryptPacket(ev: Valuation, s: Session, aad: Slice, ciphertext: Slice, nonce: Nonce, tag: seq<Byte>,
                         room: nat): Outcome
  {
    if !CarriesTraffic(s) || room != |ciphertext| then Outcome(s, Err(InvalidState))
    else if !Accepts(s.window, nonce) then Outcome(s, Err(InvalidState))
    else if s.rxKey.None? then Outcome(s, Err(InvalidState))
    else match Open(ev, s.rxKey.value, nonce, aad, ciphertext, tag)
      case Err(e) => Outcome(s, Err(e))
      case Ok(plaintext) => Outcome(CommitNonce(s, nonce).state, Ok(Plain(plaintext)))
  }

  /** Both keys still match their stored checksums. */
  predicate KeysIntact(ev: Valuation, s: Session) {
    && s.established && s.txKey.Some? && s.rxKey.Some?
    && KeySum(ev, s.txKey.value) == s.txSum && KeySum(ev, s.rxKey.value) == s.rxSum
  }
}
