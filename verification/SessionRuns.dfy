/**
 What every run of public calls keeps.
 */
module SessionRuns {
  import opened Words
  import opened SymbolicCrypto
  import opened Wrappers
  import opened AuthHandshake
  import opened HybridKdf
  import opened ReplayWindow
  import opened Aead
  import opened KeyChecksum
  import opened Sessions

  /** One public call that can change the session. */
  datatype Call =
    | CallInitiate(entropy: seq<u8>)
    | CallFinalizePlain(peerX: X25519Public, ct: MlKemCiphertext, salt: seq<Byte>, info: seq<Byte>)
    | CallEncapsulatePlain(ek: MlKemPublic, peerX: X25519Public, entropy: seq<u8>, salt: seq<Byte>, info: seq<Byte>)
    | CallEncapsulateAuth(own: SigningKey, peer: VerifyingKey, ek: MlKemPublic, peerX: X25519Public,
                          entropy: seq<u8>, salt: seq<Byte>, appInfo: seq<Byte>)
    | CallFinalizeAuth(own: SigningKey, peer: VerifyingKey, peerX: X25519Public, ct: MlKemCiphertext,
                       signature: Signature, tag: seq<Byte>, salt: seq<Byte>, appInfo: seq<Byte>)
    | CallConfirmPeer(peer: VerifyingKey, signature: Signature, tag: seq<Byte>)
    | CallNextNonce
    | CallCommitNonce(nonce: Nonce)
    | CallEncrypt(aad: Slice, plaintext: Slice, room: nat)
    | CallDecrypt(aad: Slice, ciphertext: Slice, nonce: Nonce, tag: seq<Byte>, room: nat)
    | CallZeroize

  /** The fixed-size entropy arguments have their sizes. */
  predicate Typed(c: Call) {
    (c.CallInitiate? ==> |c.entropy| == 96) &&
    (c.CallEncapsulatePlain? || c.CallEncapsulateAuth? ==> |c.entropy| == 64)
  }

  function Apply(ev: Valuation, s: Session, c: Call): Outcome
    requires Typed(c)
  {
    match c
    case CallInitiate(entropy) => Initiate(s, entropy)
    case CallFinalizePlain(peerX, ct, salt, info) => FinalizePlain(ev, s, peerX, ct, salt, info)
    case CallEncapsulatePlain(ek, peerX, entropy, salt, info) => EncapsulatePlain(ev, s, ek, peerX, entropy, salt, info)
    case CallEncapsulateAuth(own, peer, ek, peerX, entropy, salt, appInfo) =>
      EncapsulateAuth(ev, s, own, peer, ek, peerX, entropy, salt, appInfo)
    case CallFinalizeAuth(own, peer, peerX, ct, signature, tag, salt, appInfo) =>
      FinalizeAuth(ev, s, own, peer, peerX, ct, signature, tag, salt, appInfo)
    case CallConfirmPeer(peer, signature, tag) => ConfirmPeer(s, peer, signature, tag)
    case CallNextNonce => NextNonce(s)
    case CallCommitNonce(nonce) => CommitNonce(s, nonce)
    case CallEncrypt(aad, plaintext, room) => EncryptPacket(ev, s, aad, plaintext, room)
    case CallDecrypt(aad, ciphertext, nonce, tag, room) => DecryptPacket(ev, s, aad, ciphertext, nonce, tag, room)
    case CallZeroize => Outcome(New(), Ok(Unit))
  }

  predicate AllTyped(calls: seq<Call>) { forall i :: 0 <= i < |calls| ==> Typed(calls[i]) }

  function Run(ev: Valuation, s: Session, calls: seq<Call>): Session
    requires AllTyped(calls)
    decreases |calls|
  {
    if calls == [] then s else Run(ev, Apply(ev, s, calls[0]).state, calls[1..])
  }

  // ---- The session invariant ----

  predicate Inv(ev: Valuation, s: Session) {
    && s.kemSeed.Some? == s.xSecret.Some?
    && (s.kemSeed.Some? ==> !s.established)
    && s.txKey.Some? == s.rxKey.Some? == s.established
    && (if s.established then KeysIntact(ev, s) else s.txSum == s.rxSum == 0)
    && (s.pending.Some? ==> s.established)
  }

  lemma InitiateInv(ev: Valuation, s: Session, c: Call)
    requires Typed(c) && Inv(ev, s) && c.CallInitiate?
    ensures Inv(ev, Apply(ev, s, c).state)
  {
  }

  lemma EncapsulatePlainInv(ev: Valuation, s: Session, c: Call)
    requires Typed(c) && Inv(ev, s) && c.CallEncapsulatePlain?
    ensures Inv(ev, Apply(ev, s, c).state)
  {
  }

  lemma EncapsulateAuthInv(ev: Valuation, s: Session, c: Call)
    requires Typed(c) && Inv(ev, s) && c.CallEncapsulateAuth?
    ensures Inv(ev, Apply(ev, s, c).state)
  {
  }

  lemma FinalizePlainInv(ev: Valuation, s: Session, c: Call)
    requires Inv(ev, s) && c.CallFinalizePlain?
    ensures Inv(ev, Apply(ev, s, c).state)
  {
  }

  lemma FinalizeAuthInv(ev: Valuation, s: Session, c: Call)
    requires Inv(ev, s) && c.CallFinalizeAuth?
    ensures Inv(ev, Apply(ev, s, c).state)
  {
  }

  lemma ConfirmPeerInv(ev: Valuation, s: Session, c: Call)
    requires Inv(ev, s) && c.CallConfirmPeer?
    ensures Inv(ev, Apply(ev, s, c).state)
  {
  }

  lemma SendInv(ev: Valuation, s: Session, c: Call)
    requires Inv(ev, s) && (c.CallNextNonce? || c.CallEncrypt?)
    ensures Inv(ev, Apply(ev, s, c).state)
  {
  }

  lemma ReceiveInv(ev: Valuation, s: Session, c: Call)
    requires Inv(ev, s) && (c.CallCommitNonce? || c.CallDecrypt?)
    ensures Inv(ev, Apply(ev, s, c).state)
  {
  }

  lemma ZeroizeInv(ev: Valuation, s: Session)
    ensures Inv(ev, Apply(ev, s, CallZeroize).state)
  {
  }

  lemma ApplyKeepsInv(ev: Valuation, s: Session, c: Call)
    requires Typed(c) && Inv(ev, s)
    ensures Inv(ev, Apply(ev, s, c).state)
  {
    match c
    case CallInitiate(_) => InitiateInv(ev, s, c);
    case CallEncapsulatePlain(_, _, _, _, _) => EncapsulatePlainInv(ev, s, c);
    case CallEncapsulateAuth(_, _, _, _, _, _, _) => EncapsulateAuthInv(ev, s, c);
    case CallFinalizePlain(_, _, _, _) => FinalizePlainInv(ev, s, c);
    case CallFinalizeAuth(_, _, _, _, _, _, _, _) => FinalizeAuthInv(ev, s, c);
    case CallConfirmPeer(_, _, _) => ConfirmPeerInv(ev, s, c);
    case CallNextNonce => SendInv(ev, s, c);
    case CallEncrypt(_, _, _) => SendInv(ev, s, c);
    case CallCommitNonce(_) => ReceiveInv(ev, s, c);
    case CallDecrypt(_, _, _, _, _) => ReceiveInv(ev, s, c);
    case CallZeroize => ZeroizeInv(ev, s);
  }

  lemma {:induction false} RunKeepsInv(ev: Valuation, s: Session, calls: seq<Call>)
    requires AllTyped(calls) && Inv(ev, s)
    ensures Inv(ev, Run(ev, s, calls))
    decreases |calls|
  {
    if calls != [] {
      ApplyKeepsInv(ev, s, calls[0]);
      RunKeepsInv(ev, Apply(ev, s, calls[0]).state, calls[1..]);
    }
  }

  /** From a fresh manager, every sequence of public calls keeps the session invariant. */
  lemma InvariantOnEveryRun(ev: Valuation, calls: seq<Call>)
    requires AllTyped(calls)
    ensures var s := Run(ev, New(), calls);
            && (s.established <==> s.txKey.Some? && s.rxKey.Some?) && (s.established ==> KeysIntact(ev, s))
            && s.kemSeed.Some? == s.xSecret.Some? && !(s.kemSeed.Some? && s.established)
            && (s.pending.Some? ==> s.established && !CarriesTraffic(s))
  {
    RunKeepsInv(ev, New(), calls);
  }

  // ---- What a failing call leaves ----

  /** The peer's message was authenticated, or an unauthenticated finalize had secrets to consume. */
  predicate PastAuthentication(s: Session, c: Call) {
    match c
    case CallFinalizePlain(_, _, _, _) => s.kemSeed.Some? && s.xSecret.Some?
    case CallFinalizeAuth(own, peer, peerX, ct, signature, tag, _, appInfo) =>
      s.kemSeed.Some? && s.xSecret.Some? &&
      var d := ExpectedPeerDigest(s.kemSeed.value, s.xSecret.value, own, peer, peerX, ct, tag, appInfo);
      d.Ok? && Verifies(peer, d.value.2, CONTEXT_ENCAPSULATING_SIDE, signature)
    case CallConfirmPeer(peer, signature, tag) =>
      s.pending.Some? && IdentityFingerprint(peer) == s.pending.value.peerIdentity &&
      Verifies(peer, KeygenDigest(s.pending.value.digest, tag), CONTEXT_KEYGEN_SIDE, signature)
    case _ => false
  }

  /** A failing call changes nothing before authentication and wipes everything after it. */
  lemma FailingCallIsCleanOrFatal(ev: Valuation, s: Session, c: Call)
    requires Typed(c) && Apply(ev, s, c).out.Err?
    ensures Apply(ev, s, c).state == if PastAuthentication(s, c) then New() else s
  {
    if c.CallEncapsulateAuth? {
      assert forall k, d | |d| == 48 :: ConfirmationTag(k, CONFIRM_LABEL_ENCAPSULATING_SIDE, d).Ok?;
    }
  }

  // ---- Forgeries ----

  predicate IsProofCall(c: Call) { c.CallFinalizeAuth? || c.CallConfirmPeer? }

  /** A finalize or confirm leaves the session as it was exactly when it is not authenticated. */
  lemma UnauthenticatedIffUnchanged(ev: Valuation, s: Session, c: Call)
    requires Typed(c) && IsProofCall(c)
    ensures !PastAuthentication(s, c) <==> Apply(ev, s, c).state == s
    ensures !PastAuthentication(s, c) ==> Apply(ev, s, c).out.Err?
  {
  }

  /** Any number of forged messages before a genuine one leave its result, outputs and final state alone. */
  lemma {:induction false} ForgeriesDoNotInterfere(ev: Valuation, s: Session, forged: seq<Call>, genuine: Call)
    requires AllTyped(forged) && Typed(genuine)
    requires forall i :: 0 <= i < |forged| ==> IsProofCall(forged[i]) && !PastAuthentication(s, forged[i])
    ensures Run(ev, s, forged) == s
    ensures Apply(ev, Run(ev, s, forged), genuine) == Apply(ev, s, genuine)
    decreases |forged|
  {
    if forged != [] {
      UnauthenticatedIffUnchanged(ev, s, forged[0]);
      ForgeriesDoNotInterfere(ev, s, forged[1..], genuine);
    }
  }

  // ---- Transmit nonces ----

  /** The call replaces the key installation (or wipes it). */
  predicate Replaces(ev: Valuation, s: Session, c: Call)
    requires Typed(c)
  {
    match c
    case CallInitiate(_) => Apply(ev, s, c).out.Ok?
    case CallEncapsulatePlain(_, _, _, _, _) => Apply(ev, s, c).out.Ok?
    case CallEncapsulateAuth(_, _, _, _, _, _, _) => Apply(ev, s, c).out.Ok?
    case CallFinalizePlain(_, _, _, _) => PastAuthentication(s, c)
    case CallFinalizeAuth(_, _, _, _, _, _, _, _) => PastAuthentication(s, c)
    case CallConfirmPeer(_, _, _) => PastAuthentication(s, c) && Apply(ev, s, c).out.Err?
    case CallZeroize => true
    case _ => false
  }

  function IssuedBy(o: Outcome): seq<Nonce> {
    match o.out
    case Ok(Issued(n)) => [n]
    case Ok(Packet(_, n, _)) => [n]
    case _ => []
  }

  /** Every replacement restarts the counter and the window; every other call keeps the key and issues in order. */
  predicate Disciplined(ev: Valuation, s: Session, c: Call)
    requires Typed(c)
  {
    var o := Apply(ev, s, c);
    if Replaces(ev, s, c) then o.state.txCounter == 0 && o.state.window == Empty() && IssuedBy(o) == []
    else o.state.txKey == s.txKey && o.state.txCounter == s.txCounter + |IssuedBy(o)| &&
         (IssuedBy(o) != [] ==> IssuedBy(o) == [NonceOf(s.txCounter)] && s.txCounter < U64_MAX)
  }

  lemma EncapsulateDiscipline(ev: Valuation, s: Session, c: Call)
    requires Typed(c) && (c.CallEncapsulateAuth? || c.CallEncapsulatePlain?)
    ensures Disciplined(ev, s, c)
  {
    if Apply(ev, s, c).out.Err? {
      FailingCallIsCleanOrFatal(ev, s, c);
    }
  }

  lemma ConfirmDiscipline(ev: Valuation, s: Session, c: Call)
    requires Typed(c) && c.CallConfirmPeer?
    ensures Disciplined(ev, s, c)
  {
    if Apply(ev, s, c).out.Err? {
      FailingCallIsCleanOrFatal(ev, s, c);
    }
  }

  lemma FinalizeDiscipline(ev: Valuation, s: Session, c: Call)
    requires Typed(c) && (c.CallFinalizeAuth? || c.CallFinalizePlain?)
    ensures Disciplined(ev, s, c)
  {
    if Apply(ev, s, c).out.Err? {
      FailingCallIsCleanOrFatal(ev, s, c);
    }
  }

  lemma CounterDiscipline(ev: Valuation, s: Session, c: Call)
    requires Typed(c)
    ensures Disciplined(ev, s, c)
  {
    if c.CallEncapsulateAuth? || c.CallEncapsulatePlain? {
      EncapsulateDiscipline(ev, s, c);
    } else if c.CallFinalizeAuth? || c.CallFinalizePlain? {
      FinalizeDiscipline(ev, s, c);
    } else if c.CallConfirmPeer? {
      ConfirmDiscipline(ev, s, c);
    }
  }

  /** A transmit nonce and the number of the key installation it was issued under. */
  datatype Use = Use(installation: nat, nonce: Nonce)

  function Uses(ev: Valuation, s: Session, installation: nat, calls: seq<Call>): seq<Use>
    requires AllTyped(calls)
    decreases |calls|
  {
    if calls == [] then []
    else
      var o := Apply(ev, s, calls[0]);
      var here := IssuedBy(o);
      seq(|here|, i requires 0 <= i < |here| => Use(installation, here[i])) +
      Uses(ev, o.state, installation + if Replaces(ev, s, calls[0]) then 1 else 0, calls[1..])
  }

  ghost predicate Increasing(uses: seq<Use>) {
    forall i, j :: 0 <= i < j < |uses| && uses[i].installation == uses[j].installation ==>
      SequenceOf(uses[i].nonce) < SequenceOf(uses[j].nonce)
  }

  ghost predicate StartFrom(uses: seq<Use>, installation: nat, counter: u64) {
    forall u :: u in uses ==>
      u.installation >= installation && (u.installation == installation ==> SequenceOf(u.nonce) >= counter)
  }

  /** Within one key installation issued nonces strictly increase, over every run of calls. */
  lemma {:induction false} NoncesNeverRepeat(ev: Valuation, s: Session, installation: nat, calls: seq<Call>)
    requires AllTyped(calls)
    ensures Increasing(Uses(ev, s, installation, calls))
    ensures StartFrom(Uses(ev, s, installation, calls), installation, s.txCounter)
    decreases |calls|
  {
    if calls != [] {
      var o := Apply(ev, s, calls[0]);
      var next := installation + if Replaces(ev, s, calls[0]) then 1 else 0;
      var rest := Uses(ev, o.state, next, calls[1..]);
      CounterDiscipline(ev, s, calls[0]);
      NoncesNeverRepeat(ev, o.state, next, calls[1..]);
      NonceRoundTrip(s.txCounter);
      ConsIncreasing(Uses(ev, s, installation, calls), rest, installation, s.txCounter, next, o.state.txCounter);
    }
  }

  lemma ConsIncreasing(uses: seq<Use>, rest: seq<Use>, installation: nat, counter: u64, next: nat, counter': u64)
    requires Increasing(rest) && StartFrom(rest, next, counter')
    requires installation <= next && (installation == next ==> counter <= counter')
    requires uses == rest ||
             (installation == next && counter < counter' && |uses| == |rest| + 1 && uses[1..] == rest &&
              uses[0].installation == installation && SequenceOf(uses[0].nonce) == counter)
    ensures Increasing(uses) && StartFrom(uses, installation, counter)
  {
  }

  // ---- Key integrity ----

  /** Corruption of one byte of either installed key is refused by the integrity check. */
  lemma KeyCorruptionDetected(ev: Valuation, s: Session, at: nat, b: Byte)
    requires KeysIntact(ev, s) && at < 64
    ensures Val(ev, b) != Val(ev, s.txKey.value[at]) ==>
              !KeysIntact(ev, s.(txKey := Some(s.txKey.value[at := b])))
    ensures Val(ev, b) != Val(ev, s.rxKey.value[at]) ==>
              !KeysIntact(ev, s.(rxKey := Some(s.rxKey.value[at := b])))
  {
    CorruptSum(ev, s.txKey.value, at, b);
    CorruptSum(ev, s.rxKey.value, at, b);
  }

  lemma CorruptSum(ev: Valuation, key: Key, at: nat, b: Byte)
    requires at < 64
    ensures Val(ev, b) != Val(ev, key[at]) ==> KeySum(ev, key[at := b]) != KeySum(ev, key)
  {
    if Val(ev, b) != Val(ev, key[at]) {
      assert Vals(ev, key[at := b]) == Vals(ev, key)[at := Val(ev, b)];
      SingleByteCorruptionDetected(Vals(ev, key), at, Val(ev, b));
    }
  }
}
