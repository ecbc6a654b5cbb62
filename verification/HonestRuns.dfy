/**
 Runs in which both parties follow the protocol and every message arrives: when they complete, what the two
 sides then hold, and that traffic flows.
 */
module HonestRuns {
  import opened Words
  import opened SymbolicCrypto
  import opened Wrappers
  import opened AuthHandshake
  import opened HybridKdf
  import opened ReplayWindow
  import opened Aead
  import opened Sessions
  import opened SessionRuns
  import opened HandshakeAgreement

  // ---- The steps of the handshake ----

  lemma EncapsulateSucceeds(ev: Valuation, s: Session, c: Call)
    requires Typed(c) && c.CallEncapsulateAuth? && !Degenerate(c.entropy) && c.peerX.Point?
             && |c.appInfo| < 0x1_0000_0000
    ensures Apply(ev, s, c).out.Ok?
  {
  }

  lemma TagSeparatesPrks(v: View, prk: seq<Byte>, prk': seq<Byte>)
    requires EncapTag(v, prk) == EncapTag(v, prk')
    ensures prk == prk'
  {
    ConfirmationTagInjective(EncapsulatorConfirmationKey(MaterialOf(v, prk)), TranscriptOf(v),
                             EncapsulatorConfirmationKey(MaterialOf(v, prk')), TranscriptOf(v),
                             CONFIRM_LABEL_ENCAPSULATING_SIDE);
    ConfirmationKeyDeterminesSession(prk, InnerOf(v), prk', InnerOf(v));
  }

  /** Given an authentic message tagged under `prk`, finalize succeeds exactly when this side derives `prk`. */
  lemma FinalizeDecides(ev: Valuation, s: Session, c: Call, prk: seq<Byte>)
    requires c.CallFinalizeAuth? && s.kemSeed.Some? && s.xSecret.Some? && !c.peerX.LowOrder? && Bounded(FinalView(s, c))
    requires c.tag == EncapTag(FinalView(s, c), prk)
    requires Verifies(c.peer, DigestOf(FinalView(s, c), prk), CONTEXT_ENCAPSULATING_SIDE, c.signature)
    ensures var v := FinalView(s, c);
            Apply(ev, s, c) ==
            if FinalPrk(s, c) != prk then Outcome(New(), Err(KeyConfirmationFailed))
            else Outcome(Install(ev, KeygenSplit(Material(v, prk))),
                         Ok(Proof(Sign(c.own, KeygenDigest(DigestOf(v, prk), KeygenTag(v, prk)), CONTEXT_KEYGEN_SIDE),
                                  KeygenTag(v, prk))))
  {
    var v := FinalView(s, c);
    if EncapTag(v, FinalPrk(s, c)) == EncapTag(v, prk) {
      TagSeparatesPrks(v, FinalPrk(s, c), prk);
    }
  }

  lemma ConfirmSucceeds(s: Session, own: SigningKey, v: View, prk: seq<Byte>)
    requires v.keygen == VerifyingKeyOf(own)
    requires s.pending == Some(Pending(DigestOf(v, prk), IdentityFingerprint(v.keygen),
                                       KeygenConfirmationKey(MaterialOf(v, prk))))
    ensures ConfirmPeer(s, v.keygen, Sign(own, KeygenDigest(DigestOf(v, prk), KeygenTag(v, prk)), CONTEXT_KEYGEN_SIDE),
                        KeygenTag(v, prk)) == Outcome(s.(pending := None), Ok(Unit))
  {
  }

  lemma ExtractByKeyBlock(salt: seq<Byte>, salt': seq<Byte>, pq: seq<Byte>, dh: seq<Byte>)
    ensures KeyBlock(salt) == KeyBlock(salt') <==> Extract(salt, pq, dh) == Extract(salt', pq, dh)
  {
    if Extract(salt, pq, dh) == Extract(salt', pq, dh) {
      ExtractInjective(salt, pq, dh, salt', pq, dh);
    }
  }

  /** Salts that differ only in trailing zeros within one HMAC block are the same salt to both sides. */
  lemma PaddedSaltsCoincide(salt: seq<Byte>, n: nat)
    requires |salt| + n <= 128
    ensures KeyBlock(salt) == KeyBlock(salt + Zeros(n))
  {
  }

  // ---- The authenticated handshake ----

  /** The parties of one honest run and what each brings to it. */
  datatype Honest = Honest(keygenKey: SigningKey, encapKey: SigningKey, keygenEntropy: seq<u8>, encapEntropy: seq<u8>,
                           keygenSalt: seq<Byte>, encapSalt: seq<Byte>, appInfo: seq<Byte>)

  predicate Proper(h: Honest) {
    && |h.keygenEntropy| == 96 && !Degenerate(h.keygenEntropy)
    && |h.encapEntropy| == 64 && !Degenerate(h.encapEntropy) && |h.appInfo| < 0x1_0000_0000
  }

  /** What the encapsulating side does with message one. */
  function EncapCall(h: Honest, first: Output): (c: Call)
    requires Proper(h) && first.PublicKeys?
    ensures Typed(c)
  {
    CallEncapsulateAuth(h.encapKey, VerifyingKeyOf(h.keygenKey), first.ek, first.x, h.encapEntropy, h.encapSalt,
                        h.appInfo)
  }

  /** What the key-generating side does with the reply `r`. */
  function FinalCall(h: Honest, r: Output): Call
    requires r.SignedReply?
  {
    CallFinalizeAuth(h.keygenKey, VerifyingKeyOf(h.encapKey), r.x, r.ct, r.signature, r.tag, h.keygenSalt, h.appInfo)
  }

  /** Message one offers the public keys of the secrets the session then holds. */
  lemma OffersItsKeys(s: Session, entropy: seq<u8>)
    requires |entropy| == 96 && !Degenerate(entropy)
    ensures var o := Initiate(s, entropy);
            && o.state.kemSeed.Some? && o.state.xSecret.Some?
            && o.out == Ok(PublicKeys(Ek(o.state.kemSeed.value), Point(o.state.xSecret.value)))
  {
  }

  lemma HonestReply(ev: Valuation, h: Honest, first: Output, e: Session)
    requires Proper(h) && first.PublicKeys? && first.x.Point?
    ensures var (o, c) := (Apply(ev, e, EncapCall(h, first)), EncapCall(h, first));
            o.out.Ok? && o.out.value.SignedReply? &&
            var v, prk := EncapView(c, o.out.value), EncapPrk(c);
            v.keygen == VerifyingKeyOf(h.keygenKey) && v.encapX == Point(h.encapEntropy[32..]) &&
            v.ct == Ct(first.ek, h.encapEntropy[..32]) &&
            o.out.value.tag == EncapTag(v, prk) &&
            o.out.value.signature == Sign(h.encapKey, DigestOf(v, prk), CONTEXT_ENCAPSULATING_SIDE) &&
            o.state == Install(ev, EncapsulatorSplit(Material(v, prk)))
                         .(pending := Some(Pending(DigestOf(v, prk), IdentityFingerprint(v.keygen),
                                                   KeygenConfirmationKey(MaterialOf(v, prk)))))
  {
    EncapsulateSucceeds(ev, e, EncapCall(h, first));
    EncapsulateComputes(ev, e, EncapCall(h, first));
  }

  /** Both sides derive one PRK exactly when their salts share the HMAC key block. */
  lemma HonestPrks(h: Honest, k: Session, first: Output, r: Output)
    requires Proper(h) && r.SignedReply? && r.x == Point(h.encapEntropy[32..]) && k.kemSeed.Some? && k.xSecret.Some?
    requires first == PublicKeys(Ek(k.kemSeed.value), Point(k.xSecret.value))
    requires r.ct == Ct(first.ek, h.encapEntropy[..32])
    ensures FinalPrk(k, FinalCall(h, r)) == EncapPrk(EncapCall(h, first))
            <==> KeyBlock(h.keygenSalt) == KeyBlock(h.encapSalt)
  {
    var a, b := k.xSecret.value, h.encapEntropy[32..];
    assert multiset{a, b} == multiset{b, a};
    ExtractByKeyBlock(h.keygenSalt, h.encapSalt, KemBytes(Shared(first.ek, h.encapEntropy[..32])),
                      DhBytes(Dh(multiset{a, b})));
  }

  /** The three messages, each made from the one before it: what each call returns and leaves. */
  datatype Exchange = Exchange(first: Outcome, reply: Outcome, final: Outcome, done: Outcome)

  function Deliver(ev: Valuation, h: Honest, k: Session, e: Session): Exchange
    requires Proper(h)
  {
    var first := Initiate(k, h.keygenEntropy);
    if first.out.Err? || !first.out.value.PublicKeys? then Exchange(first, first, first, first)
    else
      var reply := Apply(ev, e, EncapCall(h, first.out.value));
      if reply.out.Err? || !reply.out.value.SignedReply? then Exchange(first, reply, reply, reply)
      else
        var final := Apply(ev, first.state, FinalCall(h, reply.out.value));
        if final.out.Err? || !final.out.value.Proof? then Exchange(first, reply, final, final)
        else
          var (signature, tag) := (final.out.value.signature, final.out.value.tag);
          Exchange(first, reply, final, ConfirmPeer(reply.state, VerifyingKeyOf(h.keygenKey), signature, tag))
  }

  /** Both sides hold the same two keys the other way round, and both carry traffic. */
  predicate Joined(a: Session, b: Session) {
    && CarriesTraffic(a) && CarriesTraffic(b) && a.txKey.Some? && b.txKey.Some?
    && a.txKey == b.rxKey && a.rxKey == b.txKey && a.txCounter == b.txCounter == 0 && a.window == b.window == Empty()
  }

  lemma InstallsJoin(ev: Valuation, okm: seq<Byte>)
    requires |okm| == 128
    ensures Joined(Install(ev, KeygenSplit(okm)), Install(ev, EncapsulatorSplit(okm)))
  {
  }

  /** The finalize of an honest reply, by a session that holds the secrets message one offered the keys of. */
  lemma HonestFinal(ev: Valuation, h: Honest, s: Session, first: Output, e: Session)
    requires Proper(h) && s.kemSeed.Some? && s.xSecret.Some?
    requires first == PublicKeys(Ek(s.kemSeed.value), Point(s.xSecret.value))
    ensures var (c, reply) := (EncapCall(h, first), Apply(ev, e, EncapCall(h, first)));
            reply.out.Ok? && reply.out.value.SignedReply? &&
            var v, prk := EncapView(c, reply.out.value), EncapPrk(c);
            Apply(ev, s, FinalCall(h, reply.out.value)) ==
            if KeyBlock(h.keygenSalt) != KeyBlock(h.encapSalt) then Outcome(New(), Err(KeyConfirmationFailed))
            else Outcome(Install(ev, KeygenSplit(Material(v, prk))),
                         Ok(Proof(Sign(h.keygenKey, KeygenDigest(DigestOf(v, prk), KeygenTag(v, prk)),
                                       CONTEXT_KEYGEN_SIDE), KeygenTag(v, prk))))
  {
    HonestReply(ev, h, first, e);
    var reply := Apply(ev, e, EncapCall(h, first));
    var c := FinalCall(h, reply.out.value);
    assert FinalView(s, c) == EncapView(EncapCall(h, first), reply.out.value);
    FinalizeDecides(ev, s, c, EncapPrk(EncapCall(h, first)));
    HonestPrks(h, s, first, reply.out.value);
  }

  /** The confirmation of an honest finalize. */
  lemma HonestConfirm(ev: Valuation, h: Honest, s: Session, first: Output, e: Session)
    requires Proper(h) && s.kemSeed.Some? && s.xSecret.Some?
    requires first == PublicKeys(Ek(s.kemSeed.value), Point(s.xSecret.value))
    ensures var reply := Apply(ev, e, EncapCall(h, first));
            reply.out.Ok? && reply.out.value.SignedReply? && !CarriesTraffic(reply.state) &&
            (KeyBlock(h.keygenSalt) == KeyBlock(h.encapSalt) ==>
               var final := Apply(ev, s, FinalCall(h, reply.out.value));
               final.out.Ok? && final.out.value.Proof? &&
               var done := ConfirmPeer(reply.state, VerifyingKeyOf(h.keygenKey), final.out.value.signature,
                                       final.out.value.tag);
               done.out.Ok? && Joined(final.state, done.state))
  {
    HonestReply(ev, h, first, e);
    HonestFinal(ev, h, s, first, e);
    var (c, reply) := (EncapCall(h, first), Apply(ev, e, EncapCall(h, first)));
    var v, prk := EncapView(c, reply.out.value), EncapPrk(c);
    ConfirmSucceeds(reply.state, h.keygenKey, v, prk);
    InstallsJoin(ev, Material(v, prk));
  }

  /**
   An honest run completes, with mirrored keys and traffic on both sides, exactly when the two salts
   share their HMAC key block; otherwise the key-generating side detects it and wipes its state.
   */
  lemma HonestRunCompletes(ev: Valuation, h: Honest, k: Session, e: Session)
    requires Proper(h)
    ensures var x := Deliver(ev, h, k, e);
            && x.first.out.Ok? && x.reply.out.Ok? && !CarriesTraffic(x.reply.state)
            && if KeyBlock(h.keygenSalt) != KeyBlock(h.encapSalt)
               then x.final == Outcome(New(), Err(KeyConfirmationFailed))
               else x.final.out.Ok? && x.done.out.Ok? && Joined(x.final.state, x.done.state)
  {
    OffersItsKeys(k, h.keygenEntropy);
    var first := Initiate(k, h.keygenEntropy);
    HonestFinal(ev, h, first.state, first.out.value, e);
    HonestConfirm(ev, h, first.state, first.out.value, e);
  }

  /**
   "A differing salt is caught" fails: with the empty salt on one side and one zero byte on the other the run
   completes.
   */
  lemma DifferingSaltsCanAgree(ev: Valuation, h: Honest, k: Session, e: Session)
    requires Proper(h) && h.keygenSalt == [] && h.encapSalt == [Raw(0)]
    ensures h.keygenSalt != h.encapSalt
    ensures var x := Deliver(ev, h, k, e); x.final.out.Ok? && x.done.out.Ok? && Joined(x.final.state, x.done.state)
  {
    PaddedSaltsCoincide([], 1);
    assert [] + Zeros(1) == [Raw(0)];
    HonestRunCompletes(ev, h, k, e);
  }

  // ---- The unauthenticated handshake ----

  /** The two messages of the unauthenticated handshake, each side with its own salt and info. */
  function DeliverPlain(ev: Valuation, h: Honest, k: Session, e: Session, keygenInfo: seq<Byte>, encapInfo: seq<Byte>)
      : Exchange
    requires Proper(h)
  {
    var first := Initiate(k, h.keygenEntropy);
    if first.out.Err? || !first.out.value.PublicKeys? then Exchange(first, first, first, first)
    else
      var (ek, x) := (first.out.value.ek, first.out.value.x);
      var reply := EncapsulatePlain(ev, e, ek, x, h.encapEntropy, h.encapSalt, encapInfo);
      if reply.out.Err? || !reply.out.value.Reply? then Exchange(first, reply, reply, reply)
      else
        var final := FinalizePlain(ev, first.state, reply.out.value.x, reply.out.value.ct, h.keygenSalt, keygenInfo);
        Exchange(first, reply, final, reply)
  }

  /** Mirrored splits of two derivations coincide exactly when PRK and info do. */
  lemma SplitsMirror(prk: seq<Byte>, inner: seq<Byte>, prk': seq<Byte>, inner': seq<Byte>)
    ensures var (a, b) := (KeygenSplit(SessionMaterial(prk, inner)), EncapsulatorSplit(SessionMaterial(prk', inner')));
            && (a.tx == b.rx <==> prk == prk' && inner == inner')
            && (a.rx == b.tx <==> prk == prk' && inner == inner')
  {
    var (okm, okm') := (SessionMaterial(prk, inner), SessionMaterial(prk', inner'));
    var (a, b) := (KeygenSplit(okm), EncapsulatorSplit(okm'));
    assert a.tx[0] == okm[0] == OkmByte(prk, inner, 0) && b.rx[0] == okm'[0] == OkmByte(prk', inner', 0);
    assert a.rx[0] == okm[32] == OkmByte(prk, inner, 32) && b.tx[0] == okm'[32] == OkmByte(prk', inner', 32);
  }

  /**
   Both calls of the unauthenticated handshake always succeed, and nothing is detected: the two sides can talk
   exactly when their salts share the HMAC key block and their infos are equal.
   */
  lemma PlainRunJoinsIff(ev: Valuation, h: Honest, k: Session, e: Session, keygenInfo: seq<Byte>, encapInfo: seq<Byte>)
    requires Proper(h)
    ensures var x := DeliverPlain(ev, h, k, e, keygenInfo, encapInfo);
            var (a, b) := (x.final.state, x.reply.state);
            && x.reply.out.Ok? && x.final.out.Ok? && CarriesTraffic(a) && CarriesTraffic(b)
            && (Joined(a, b) <==> KeyBlock(h.keygenSalt) == KeyBlock(h.encapSalt) && keygenInfo == encapInfo)
            && (a.txKey == b.rxKey || a.rxKey == b.txKey <==> Joined(a, b))
  {
    OffersItsKeys(k, h.keygenEntropy);
    var s := Initiate(k, h.keygenEntropy).state;
    var (a, b) := (s.xSecret.value, h.encapEntropy[32..]);
    var (ct, x) := (Ct(Ek(s.kemSeed.value), h.encapEntropy[..32]), Point(b));
    var (pq, dh) := (KemBytes(Shared(Ek(s.kemSeed.value), h.encapEntropy[..32])), DhBytes(Dh(multiset{a, b})));
    assert multiset{a, b} == multiset{b, a};
    ExtractByKeyBlock(h.keygenSalt, h.encapSalt, pq, dh);
    if HandshakeTranscript(ct, x, keygenInfo) == HandshakeTranscript(ct, x, encapInfo) {
      InnerInjective(ct, x, keygenInfo, ct, x, encapInfo);
    }
    SplitsMirror(Extract(h.keygenSalt, pq, dh), HandshakeTranscript(ct, x, keygenInfo),
                 Extract(h.encapSalt, pq, dh), HandshakeTranscript(ct, x, encapInfo));
  }

  // ---- Traffic ----

  /**
   A packet one session makes, opened by a session that receives under the same key and has not seen its nonce:
   it is made exactly when the sender carries traffic, the buffer fits, the length is admissible and the counter
   has not ended; it opens to its plaintext under its own aad and to nothing under any other.
   */
  lemma PacketRoundTrip(ev: Valuation, s: Session, r: Session, aad: Slice, plaintext: Slice, room: nat, aad': Slice)
    requires s.txKey.Some? && r.rxKey == s.txKey && CarriesTraffic(r) && Accepts(r.window, NonceOf(s.txCounter))
    ensures var o := EncryptPacket(ev, s, aad, plaintext, room);
            && (o.out.Ok? <==>
                  CarriesTraffic(s) && room == |plaintext| <= CHACHA20_MAX_BYTES && s.txCounter < U64_MAX)
            && (o.out.Ok? ==>
                  o.out.value.Packet? &&
                  var p := o.out.value;
                  var result := DecryptPacket(ev, r, aad', p.ciphertext, p.nonce, p.tag, room).out;
                  if aad' == aad then result == Ok(Plain(plaintext)) else result == Err(VerificationFailed))
  {
    if |plaintext| <= CHACHA20_MAX_BYTES {
      OpenInvertsSeal(ev, s.txKey.value, NonceOf(s.txCounter), aad, plaintext, NonceOf(s.txCounter), aad',
                      Seal(ev, s.txKey.value, NonceOf(s.txCounter), plaintext));
    }
  }

  lemma FreshWindowAccepts(counter: u64)
    ensures Accepts(Empty(), NonceOf(counter))
  {
    NonceRoundTrip(counter);
  }

  /** After an honest run that completes, the first packet either side makes opens on the other side. */
  lemma HonestRunCarriesTraffic(ev: Valuation, h: Honest, k: Session, e: Session, aad: Slice, plaintext: Slice)
    requires Proper(h) && KeyBlock(h.keygenSalt) == KeyBlock(h.encapSalt) && |plaintext| <= CHACHA20_MAX_BYTES
    ensures var x := Deliver(ev, h, k, e);
            Carries(ev, x.final.state, x.done.state, aad, plaintext)
            && Carries(ev, x.done.state, x.final.state, aad, plaintext)
  {
    HonestRunCompletes(ev, h, k, e);
    var x := Deliver(ev, h, k, e);
    FreshWindowAccepts(0);
    PacketRoundTrip(ev, x.final.state, x.done.state, aad, plaintext, |plaintext|, aad);
    PacketRoundTrip(ev, x.done.state, x.final.state, aad, plaintext, |plaintext|, aad);
  }

  /** What `s` makes of the message, `r` opens to it. */
  predicate Carries(ev: Valuation, s: Session, r: Session, aad: Slice, plaintext: Slice) {
    match EncryptPacket(ev, s, aad, plaintext, |plaintext|).out
    case Ok(Packet(ciphertext, nonce, tag)) =>
      DecryptPacket(ev, r, aad, ciphertext, nonce, tag, |ciphertext|).out == Ok(Plain(plaintext))
    case _ => false
  }
}
