/**
 When each public call of the session manager succeeds, and what it reports when it does not.
 */
module SessionAnswers {
  import opened Words
  import opened SymbolicCrypto
  import opened Wrappers
  import opened AuthHandshake
  import opened HybridKdf
  import opened ReplayWindow
  import opened Aead
  import opened Sessions
  import opened SessionRuns
  import opened HandshakeAgreement

  /** Entropy that is not all zero bytes and not all 255. */
  predicate Varied(entropy: seq<u8>) {
    entropy != seq(|entropy|, _ => 0) && entropy != seq(|entropy|, _ => 255)
  }

  predicate HasSecrets(s: Session) { s.kemSeed.Some? && s.xSecret.Some? }

  /** The call succeeds. */
  predicate Accepted(s: Session, c: Call)
    requires Typed(c)
  {
    match c
    case CallInitiate(entropy) => Varied(entropy)
    case CallFinalizePlain(peerX, _, _, _) => HasSecrets(s) && !peerX.LowOrder?
    case CallEncapsulatePlain(_, peerX, entropy, _, _) => Varied(entropy) && !peerX.LowOrder?
    case CallEncapsulateAuth(_, _, _, peerX, entropy, _, appInfo) =>
      Varied(entropy) && !peerX.LowOrder? && |appInfo| < 0x1_0000_0000
    case CallFinalizeAuth(_, _, peerX, _, _, tag, _, _) =>
      PastAuthentication(s, c) && !peerX.LowOrder? && tag == EncapTag(FinalView(s, c), FinalPrk(s, c))
    case CallConfirmPeer(_, _, tag) =>
      PastAuthentication(s, c)
      && Ok(tag) == ConfirmationTag(s.pending.value.confirmationKey, CONFIRM_LABEL_KEYGEN_SIDE, s.pending.value.digest)
    case CallNextNonce => s.txCounter < U64_MAX
    case CallEncrypt(_, plaintext, room) =>
      CarriesTraffic(s) && room == |plaintext| <= CHACHA20_MAX_BYTES && s.txCounter < U64_MAX
    case CallDecrypt(aad, ciphertext, nonce, tag, room) =>
      CarriesTraffic(s) && room == |ciphertext| <= CHACHA20_MAX_BYTES && Accepts(s.window, nonce)
      && s.rxKey.Some? && tag == Tag(s.rxKey.value, nonce, aad, ciphertext)
    case _ => true
  }

  /** Why a call that is not accepted fails. */
  function Reason(s: Session, c: Call): CryptoError {
    match c
    case CallEncapsulateAuth(_, _, _, _, _, _, appInfo) =>
      if |appInfo| >= 0x1_0000_0000 then InvalidLength else InvalidState
    case CallFinalizeAuth(_, _, peerX, _, _, _, _, appInfo) =>
      if !HasSecrets(s) then InvalidState
      else if |appInfo| >= 0x1_0000_0000 then InvalidLength
      else if !PastAuthentication(s, c) then VerificationFailed
      else if peerX.LowOrder? then InvalidState else KeyConfirmationFailed
    case CallConfirmPeer(_, _, _) =>
      if s.pending.None? then InvalidState
      else if !PastAuthentication(s, c) then VerificationFailed else KeyConfirmationFailed
    case CallEncrypt(_, plaintext, room) =>
      if CarriesTraffic(s) && room == |plaintext| && s.txCounter < U64_MAX then InvalidLength else InvalidState
    case CallDecrypt(_, ciphertext, nonce, _, room) =>
      if !CarriesTraffic(s) || room != |ciphertext| || !Accepts(s.window, nonce) then InvalidState
      else if |ciphertext| > CHACHA20_MAX_BYTES then InvalidLength else VerificationFailed
    case _ => InvalidState
  }

  ghost predicate Answered(ev: Valuation, s: Session, c: Call)
    requires Typed(c)
  {
    var out := Apply(ev, s, c).out;
    if Accepted(s, c) then out.Ok? else out == Err(Reason(s, c))
  }

  lemma VariedIff(entropy: seq<u8>)
    ensures Varied(entropy) <==> !Degenerate(entropy)
  {
  }

  lemma EncapsulationAnswers(ev: Valuation, s: Session, c: Call)
    requires Typed(c) && (c.CallInitiate? || c.CallEncapsulatePlain? || c.CallEncapsulateAuth?)
    ensures Answered(ev, s, c)
  {
    VariedIff(c.entropy);
  }

  lemma FinalizeAnswers(ev: Valuation, s: Session, c: Call)
    requires Typed(c) && (c.CallFinalizePlain? || c.CallFinalizeAuth?)
    ensures Answered(ev, s, c)
  {
  }

  /** A pending authentication holds a digest of 48 bytes, so the label and the digest fit the tag's buffer. */
  predicate Sized(s: Session) { s.pending.Some? ==> |s.pending.value.digest| == 48 }

  lemma {:induction false} RunKeepsSized(ev: Valuation, s: Session, calls: seq<Call>)
    requires AllTyped(calls) && Sized(s)
    ensures Sized(SessionRuns.Run(ev, s, calls))
    decreases |calls|
  {
    if calls != [] {
      var o := Apply(ev, s, calls[0]);
      if o.state.pending.Some? {
        if calls[0].CallEncapsulateAuth? && o.out.Ok? {
          EncapsulateComputes(ev, s, calls[0]);
        } else {
          PendingOrigin(ev, s, calls[0]);
        }
      }
      RunKeepsSized(ev, o.state, calls[1..]);
    }
  }

  lemma ConfirmAnswers(ev: Valuation, s: Session, c: Call)
    requires Sized(s) && c.CallConfirmPeer?
    ensures Answered(ev, s, c)
  {
  }

  lemma TrafficAnswers(ev: Valuation, s: Session, c: Call)
    requires Inv(ev, s) && Typed(c)
    requires c.CallNextNonce? || c.CallCommitNonce? || c.CallEncrypt? || c.CallDecrypt? || c.CallZeroize?
    ensures Answered(ev, s, c)
  {
  }

  /** After every sequence of calls on a fresh manager, each call succeeds exactly so and fails exactly so. */
  lemma AnswersOnEveryRun(ev: Valuation, calls: seq<Call>, c: Call)
    requires AllTyped(calls) && Typed(c)
    ensures Answered(ev, SessionRuns.Run(ev, New(), calls), c)
  {
    SessionRuns.RunKeepsInv(ev, New(), calls);
    RunKeepsSized(ev, New(), calls);
    var s := SessionRuns.Run(ev, New(), calls);
    match c
    case CallInitiate(_) => EncapsulationAnswers(ev, s, c);
    case CallEncapsulatePlain(_, _, _, _, _) => EncapsulationAnswers(ev, s, c);
    case CallEncapsulateAuth(_, _, _, _, _, _, _) => EncapsulationAnswers(ev, s, c);
    case CallFinalizePlain(_, _, _, _) => FinalizeAnswers(ev, s, c);
    case CallFinalizeAuth(_, _, _, _, _, _, _, _) => FinalizeAnswers(ev, s, c);
    case CallConfirmPeer(_, _, _) => ConfirmAnswers(ev, s, c);
    case _ => TrafficAnswers(ev, s, c);
  }
}
