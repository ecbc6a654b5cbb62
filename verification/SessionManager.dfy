/**
 The session manager as the object it is: fields updated in place, one method per public call, each
 proved to compute the corresponding function of module `Sessions`.
 */
module SessionManagement {
  import opened Words
  import opened SymbolicCrypto
  import opened Wrappers
  import opened AuthHandshake
  import opened HybridKdf
  import opened ReplayWindow
  import opened Aead
  import opened KeyChecksum
  import opened Sessions

  /** A shared secret in a buffer of its own, as the wrappers hand it out. */
  method Buffer(secret: seq<Byte>) returns (a: array<Byte>)
    ensures fresh(a) && a[..] == secret
  {
    a := new Byte[|secret|](i requires 0 <= i < |secret| => secret[i]);
  }

  class SessionManager {
    /** The run-time values of derived bytes. */
    const ev: Valuation
    var kemSeed: Option<seq<u8>>
    var xSecret: Option<seq<u8>>
    var txKey: Option<Key>
    var rxKey: Option<Key>
    var txKeyChecksum: bv32
    var rxKeyChecksum: bv32
    var isEstablished: bool
    var txCounter: u64
    var rxCounter: u64
    var rxWindow: Bits64
    var pendingAuth: Option<Pending>

    ghost function State(): Session
      reads this
    {
      Session(kemSeed, xSecret, txKey, rxKey, txKeyChecksum, rxKeyChecksum, isEstablished, txCounter,
              Window(rxCounter, rxWindow), pendingAuth)
    }

    constructor (ev: Valuation)
      ensures State() == New() && this.ev == ev
    {
      this.ev := ev;
      kemSeed, xSecret, txKey, rxKey := None, None, None, None;
      txKeyChecksum, rxKeyChecksum, isEstablished := 0, 0, false;
      txCounter, rxCounter, rxWindow, pendingAuth := 0, 0, NoBits(), None;
    }

    method ZeroizeSession()
      modifies this
      ensures State() == New()
    {
      kemSeed, xSecret := None, None;
      txKey, rxKey := None, None;
      txKeyChecksum, rxKeyChecksum := 0, 0;
      isEstablished := false;
      txCounter, rxCounter, rxWindow := 0, 0, NoBits();
      pendingAuth := None;
    }

    method InstallKeys(keys: Keys)
      modifies this
      ensures State() == Install(ev, keys)
    {
      ZeroizeSession();
      txKey, rxKey := Some(keys.tx), Some(keys.rx);
      txKeyChecksum := KeyChecksum.Compute(Vals(ev, keys.tx));
      rxKeyChecksum := KeyChecksum.Compute(Vals(ev, keys.rx));
      isEstablished := true;
    }

    method InitiateHandshake(entropy: seq<u8>) returns (r: Result<Output>)
      requires |entropy| == 96
      modifies this
      ensures Outcome(State(), r) == Initiate(old(State()), entropy)
    {
      if Degenerate(entropy) {
        return Err(InvalidState);
      }
      var mlKemEntropy, x25519Entropy := entropy[..64], entropy[64..];
      ZeroizeSession();
      kemSeed, xSecret := Some(mlKemEntropy), Some(x25519Entropy);
      r := Ok(PublicKeys(Ek(mlKemEntropy), Point(x25519Entropy)));
    }

    method FinalizeHandshake(peerX: X25519Public, ct: MlKemCiphertext, salt: seq<Byte>, info: seq<Byte>)
        returns (r: Result<Output>)
      modifies this
      ensures Outcome(State(), r) == FinalizePlain(ev, old(State()), peerX, ct, salt, info)
    {
      if kemSeed.None? || xSecret.None? {
        return Err(InvalidState);
      }
      var pqSecret := Decapsulate(kemSeed.value, ct);
      var classical := DiffieHellman(xSecret.value, peerX);
      if classical.Err? {
        ZeroizeSession();
        return Err(classical.error);
      }
      var transcript := HandshakeTranscript(ct, peerX, info);
      var pq := Buffer(KemBytes(pqSecret));
      var dh := Buffer(DhBytes(classical.value));
      var okm := DeriveHybridKey(pq, dh, salt, transcript);
      InstallKeys(KeygenSplit(okm));
      r := Ok(Unit);
    }

    /** The shared body of both encapsulations; a failure leaves the session alone. */
    method EncapsulateInner(ek: MlKemPublic, peerX: X25519Public, entropy: seq<u8>, salt: seq<Byte>, info: seq<Byte>,
                            wantConfirmation: bool)
        returns (r: Result<(MlKemCiphertext, X25519Public, Option<seq<Byte>>)>)
      requires |entropy| == 64
      modifies this
      ensures match Encapsulated(ek, peerX, entropy, salt, info)
              case Err(e) => r == Err(e) && State() == old(State())
              case Ok(enc) =>
                State() == Install(ev, EncapsulatorSplit(SessionMaterial(enc.prk, enc.inner))) &&
                r == Ok((enc.ct, enc.x,
                         if wantConfirmation then Some(ConfirmationMaterial(enc.prk, enc.inner)) else None))
    {
      if Degenerate(entropy) {
        return Err(InvalidState);
      }
      var (pqSecret, ct) := Encapsulate(ek, entropy[..32]);
      var myX := Point(entropy[32..]);
      var classical := DiffieHellman(entropy[32..], peerX);
      if classical.Err? {
        return Err(classical.error);
      }
      var transcript := HandshakeTranscript(ct, myX, info);
      var pq := Buffer(KemBytes(pqSecret));
      var dh := Buffer(DhBytes(classical.value));
      var okm, confirmation;
      if wantConfirmation {
        var material;
        okm, material := DeriveHybridKeyWithConfirmation(pq, dh, salt, transcript, ConfirmationInfo(transcript));
        confirmation := Some(material);
      } else {
        okm := DeriveHybridKey(pq, dh, salt, transcript);
        confirmation := None;
      }
      InstallKeys(EncapsulatorSplit(okm));
      r := Ok((ct, myX, confirmation));
    }

    method EncapsulateForPeer(ek: MlKemPublic, peerX: X25519Public, entropy: seq<u8>, salt: seq<Byte>, info: seq<Byte>)
        returns (r: Result<Output>)
      requires |entropy| == 64
      modifies this
      ensures Outcome(State(), r) == EncapsulatePlain(ev, old(State()), ek, peerX, entropy, salt, info)
    {
      var inner := EncapsulateInner(ek, peerX, entropy, salt, info, false);
      r := if inner.Err? then Err(inner.error) else Ok(Reply(inner.value.0, inner.value.1));
    }

    method EncapsulateAuthenticated(own: SigningKey, peer: VerifyingKey, ek: MlKemPublic, peerX: X25519Public,
                                    entropy: seq<u8>, salt: seq<Byte>, appInfo: seq<Byte>) returns (r: Result<Output>)
      requires |entropy| == 64
      modifies this
      ensures Outcome(State(), r) == EncapsulateAuth(ev, old(State()), own, peer, ek, peerX, entropy, salt, appInfo)
    {
      var ownIdentity := IdentityFingerprint(VerifyingKeyOf(own));
      var peerIdentity := IdentityFingerprint(peer);
      var binding := HandshakeBinding(ek, peerX, peerIdentity, ownIdentity, appInfo);
      if binding.Err? {
        return Err(binding.error);
      }
      var inner := EncapsulateInner(ek, peerX, entropy, salt, binding.value, true);
      if inner.Err? {
        return Err(inner.error);
      }
      var (ct, x, material) := (inner.value.0, inner.value.1, inner.value.2.value);
      var transcript := TranscriptHash(binding.value, ct, x);
      var tag := ComputeConfirmationTag(EncapsulatorConfirmationKey(material), CONFIRM_LABEL_ENCAPSULATING_SIDE,
                                        transcript);
      assert tag.Ok?; // the label and the digest fit the message buffer
      var digest := EncapsulatorDigest(transcript, tag.value);
      pendingAuth := Some(Pending(digest, peerIdentity, KeygenConfirmationKey(material)));
      r := Ok(SignedReply(ct, x, Sign(own, digest, CONTEXT_ENCAPSULATING_SIDE), tag.value));
    }

    method FinalizeAuthenticated(own: SigningKey, peer: VerifyingKey, peerX: X25519Public, ct: MlKemCiphertext,
                                 signature: Signature, peerTag: seq<Byte>, salt: seq<Byte>, appInfo: seq<Byte>)
        returns (r: Result<Output>)
      modifies this
      ensures Outcome(State(), r) ==
              FinalizeAuth(ev, old(State()), own, peer, peerX, ct, signature, peerTag, salt, appInfo)
    {
      if kemSeed.None? || xSecret.None? {
        return Err(InvalidState);
      }
      var binding := HandshakeBinding(Ek(kemSeed.value), Point(xSecret.value), IdentityFingerprint(VerifyingKeyOf(own)),
                                      IdentityFingerprint(peer), appInfo);
      if binding.Err? {
        return Err(binding.error);
      }
      var transcript := TranscriptHash(binding.value, ct, peerX);
      var peerDigest := EncapsulatorDigest(transcript, peerTag);
      if !Verifies(peer, peerDigest, CONTEXT_ENCAPSULATING_SIDE, signature) {
        return Err(VerificationFailed);
      }
      var outcome := CompleteAuthenticatedFinalize(own, peerX, ct, peerTag, salt, binding.value, transcript,
                                                   peerDigest);
      if outcome.Err? {
        ZeroizeSession();
        return Err(outcome.error);
      }
      InstallKeys(outcome.value.keys);
      r := Ok(Proof(outcome.value.signature, outcome.value.tag));
    }

    /** The steps after authentication; reads the pending handshake and changes nothing. */
    method CompleteAuthenticatedFinalize(own: SigningKey, peerX: X25519Public, ct: MlKemCiphertext, peerTag: seq<Byte>,
                                         salt: seq<Byte>, binding: seq<Byte>, transcript: seq<Byte>,
                                         peerDigest: seq<Byte>) returns (r: Result<Finalized>)
      requires |transcript| == |peerDigest| == 48
      ensures r == if kemSeed.None? || xSecret.None? then Err(InvalidState)
                   else CompleteFinalize(kemSeed.value, xSecret.value, own, peerX, ct, peerTag, salt, binding,
                                         transcript,
                                         peerDigest)
    {
      if kemSeed.None? || xSecret.None? {
        return Err(InvalidState);
      }
      var classical := DiffieHellman(xSecret.value, peerX);
      if classical.Err? {
        return Err(classical.error);
      }
      var inner := HandshakeTranscript(ct, peerX, binding);
      var pq := Buffer(KemBytes(Decapsulate(kemSeed.value, ct)));
      var dh := Buffer(DhBytes(classical.value));
      var session, material := DeriveHybridKeyWithConfirmation(pq, dh, salt, inner, ConfirmationInfo(inner));
      var expected := ComputeConfirmationTag(EncapsulatorConfirmationKey(material), CONFIRM_LABEL_ENCAPSULATING_SIDE,
                                             transcript);
      assert expected.Ok?; // the label and the digest fit the message buffer
      if expected.value != peerTag {
        return Err(KeyConfirmationFailed);
      }
      var tag := ComputeConfirmationTag(KeygenConfirmationKey(material), CONFIRM_LABEL_KEYGEN_SIDE, peerDigest);
      assert tag.Ok?;
      r := Ok(Finalized(Sign(own, KeygenDigest(peerDigest, tag.value), CONTEXT_KEYGEN_SIDE), tag.value,
                        KeygenSplit(session)));
    }

    method ConfirmPeer(peer: VerifyingKey, signature: Signature, peerTag: seq<Byte>) returns (r: Result<Output>)
      modifies this
      ensures Outcome(State(), r) == Sessions.ConfirmPeer(old(State()), peer, signature, peerTag)
    {
      if pendingAuth.None? {
        return Err(InvalidState);
      }
      var pending := pendingAuth.value;
      if IdentityFingerprint(peer) != pending.peerIdentity {
        return Err(VerificationFailed);
      }
      if !Verifies(peer, KeygenDigest(pending.digest, peerTag), CONTEXT_KEYGEN_SIDE, signature) {
        return Err(VerificationFailed);
      }
      var expected := ConfirmationTag(pending.confirmationKey, CONFIRM_LABEL_KEYGEN_SIDE, pending.digest);
      if expected.Err? {
        ZeroizeSession();
        return Err(expected.error);
      }
      if expected.value != peerTag {
        ZeroizeSession();
        return Err(KeyConfirmationFailed);
      }
      pendingAuth := None;
      r := Ok(Unit);
    }

    method GetNextTxNonce() returns (r: Result<Output>)
      modifies this
      ensures Outcome(State(), r) == NextNonce(old(State()))
    {
      if txCounter == U64_MAX {
        return Err(InvalidState);
      }
      r := Ok(Issued(NonceOf(txCounter)));
      txCounter := txCounter + 1;
    }

    method CheckRxNonce(nonce: Nonce) returns (r: Result<Output>)
      ensures r == if Accepts(State().window, nonce) then Ok(Unit) else Err(InvalidState)
    {
      if nonce[8] != 0 || nonce[9] != 0 || nonce[10] != 0 || nonce[11] != 0 {
        return Err(InvalidState);
      }
      var sequence := SequenceOf(nonce);
      if sequence > rxCounter {
        return Ok(Unit);
      }
      var offset := rxCounter - sequence;
      if offset >= 64 || rxWindow[offset] {
        return Err(InvalidState);
      }
      r := Ok(Unit);
    }

    method CommitRxNonce(nonce: Nonce)
      modifies this
      ensures State() == CommitNonce(old(State()), nonce).state
    {
      var sequence := SequenceOf(nonce);
      if sequence > rxCounter {
        rxWindow := Advance(rxWindow, sequence - rxCounter);
        rxCounter := sequence;
      } else {
        var offset := rxCounter - sequence;
        if offset >= 64 {
          return;
        }
        rxWindow := rxWindow[offset := true];
      }
    }

    method EncryptPacket(aad: Slice, plaintext: Slice, ciphertext: array<bv8>) returns (r: Result<(Nonce, seq<Byte>)>)
      modifies this, ciphertext
      ensures var o := Sessions.EncryptPacket(ev, old(State()), aad, plaintext, ciphertext.Length);
              State() == o.state &&
              match o.out
              case Ok(p) => p.Packet? && r == Ok((p.nonce, p.tag)) && ciphertext[..] == p.ciphertext
              case Err(e) => r == Err(e) && ciphertext[..] == old(ciphertext[..])
    {
      if !isEstablished || pendingAuth.Some? || ciphertext.Length != |plaintext| {
        return Err(InvalidState);
      }
      if txCounter == U64_MAX {
        return Err(InvalidState);
      }
      if txKey.None? {
        return Err(InvalidState);
      }
      var nonce := NonceOf(txCounter);
      var tag := Aead.Encrypt(ev, txKey.value, nonce, aad, plaintext, ciphertext);
      if tag.Err? {
        return Err(tag.error);
      }
      txCounter := txCounter + 1;
      r := Ok((nonce, tag.value));
    }

    method DecryptPacket(aad: Slice, ciphertext: Slice, nonce: Nonce, tag: seq<Byte>, plaintext: array<bv8>)
        returns (r: Result<()>)
      modifies this, plaintext
      ensures var o := Sessions.DecryptPacket(ev, old(State()), aad, ciphertext, nonce, tag, plaintext.Length);
              State() == o.state &&
              match o.out
              case Ok(p) => p.Plain? && r == Ok(()) && plaintext[..] == p.plaintext
              case Err(e) => r == Err(e) && plaintext[..] ==
                             if e == VerificationFailed then seq(plaintext.Length, _ => 0) else old(plaintext[..])
    {
      if !isEstablished || pendingAuth.Some? || plaintext.Length != |ciphertext| {
        return Err(InvalidState);
      }
      var unseen := CheckRxNonce(nonce);
      if unseen.Err? {
        return Err(unseen.error);
      }
      if rxKey.None? {
        return Err(InvalidState);
      }
      r := Aead.Decrypt(ev, rxKey.value, nonce, aad, ciphertext, tag, plaintext);
      if r.Ok? {
        CommitRxNonce(nonce);
      }
    }

    method VerifyKeyIntegrity() returns (r: Result<()>)
      ensures r == if KeysIntact(ev, State()) then Ok(()) else Err(InvalidState)
    {
      if !isEstablished || txKey.None? || rxKey.None? {
        return Err(InvalidState);
      }
      var txNow := KeyChecksum.Compute(Vals(ev, txKey.value));
      var rxNow := KeyChecksum.Compute(Vals(ev, rxKey.value));
      if txNow != txKeyChecksum || rxNow != rxKeyChecksum {
        return Err(InvalidState);
      }
      r := Ok(());
    }
  }
}
