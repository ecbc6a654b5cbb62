/**
 Agreement of the authenticated handshake over unboundedly many sessions and attacker messages.

 A world holds any number of sessions. At each step the attacker picks a session and any public
 call with any arguments; the one thing it cannot do is present a signature of an honest key on a
 message that key never signed. Honest keys sign only inside these calls.
 */
module HandshakeAgreement {
  import opened Words
  import opened SymbolicCrypto
  import opened Wrappers
  import opened AuthHandshake
  import opened HybridKdf
  import opened Sessions
  import opened SessionRuns

  // ---- Everything both sides compute is a function of the view and the PRK ----

  /** What the two sides must agree on. */
  datatype View = View(ek: MlKemPublic, keygenX: X25519Public, ct: MlKemCiphertext, encapX: X25519Public,
                       keygen: VerifyingKey, encap: VerifyingKey, appInfo: seq<Byte>)

  predicate Bounded(v: View) { |v.appInfo| < 0x1_0000_0000 }

  function BindingOf(v: View): (r: seq<Byte>)
    ensures |r| == 48
  {
    HashParts(BindingParts(v.ek, v.keygenX, IdentityFingerprint(v.keygen), IdentityFingerprint(v.encap), v.appInfo))
  }

  function TranscriptOf(v: View): (r: seq<Byte>) ensures |r| == 48 { TranscriptHash(BindingOf(v), v.ct, v.encapX) }

  function InnerOf(v: View): (r: seq<Byte>) ensures |r| == 48 { HandshakeTranscript(v.ct, v.encapX, BindingOf(v)) }

  function MaterialOf(v: View, prk: seq<Byte>): (r: seq<Byte>)
    ensures |r| == 96
  {
    ConfirmationMaterial(prk, InnerOf(v))
  }

  function EncapTag(v: View, prk: seq<Byte>): seq<Byte> {
    ConfirmationTag(EncapsulatorConfirmationKey(MaterialOf(v, prk)), CONFIRM_LABEL_ENCAPSULATING_SIDE,
                    TranscriptOf(v)).value
  }

  function DigestOf(v: View, prk: seq<Byte>): (r: seq<Byte>)
    ensures |r| == 48
  {
    EncapsulatorDigest(TranscriptOf(v), EncapTag(v, prk))
  }

  function KeygenTag(v: View, prk: seq<Byte>): seq<Byte> {
    ConfirmationTag(KeygenConfirmationKey(MaterialOf(v, prk)), CONFIRM_LABEL_KEYGEN_SIDE, DigestOf(v, prk)).value
  }

  function Material(v: View, prk: seq<Byte>): (r: seq<Byte>)
    ensures |r| == 128
  {
    SessionMaterial(prk, InnerOf(v))
  }

  lemma TranscriptDeterminesView(v: View, w: View)
    requires Bounded(v) && Bounded(w) && TranscriptOf(v) == TranscriptOf(w)
    ensures v == w
  {
    TranscriptInjective(BindingOf(v), v.ct, v.encapX, BindingOf(w), w.ct, w.encapX);
    BindingInjective(v.ek, v.keygenX, IdentityFingerprint(v.keygen), IdentityFingerprint(v.encap), v.appInfo,
                     w.ek, w.keygenX, IdentityFingerprint(w.keygen), IdentityFingerprint(w.encap), w.appInfo);
    IdentityInjective(v.keygen, w.keygen);
    IdentityInjective(v.encap, w.encap);
  }

  /** The signed digest determines the whole view and the PRK. */
  lemma DigestDeterminesAll(v: View, prk: seq<Byte>, w: View, prk': seq<Byte>)
    requires Bounded(v) && Bounded(w) && DigestOf(v, prk) == DigestOf(w, prk')
    ensures v == w && prk == prk'
  {
    EncapsulatorDigestInjective(TranscriptOf(v), EncapTag(v, prk), TranscriptOf(w), EncapTag(w, prk'));
    TranscriptDeterminesView(v, w);
    ConfirmationTagInjective(EncapsulatorConfirmationKey(MaterialOf(v, prk)), TranscriptOf(v),
                             EncapsulatorConfirmationKey(MaterialOf(w, prk')), TranscriptOf(w),
                             CONFIRM_LABEL_ENCAPSULATING_SIDE);
    ConfirmationKeyDeterminesSession(prk, InnerOf(v), prk', InnerOf(w));
  }

  // ---- What a successful call computed ----

  function EncapView(c: Call, out: Output): View
    requires c.CallEncapsulateAuth? && out.SignedReply?
  {
    View(c.ek, c.peerX, out.ct, out.x, c.peer, VerifyingKeyOf(c.own), c.appInfo)
  }

  function EncapPrk(c: Call): seq<Byte>
    requires Typed(c) && c.CallEncapsulateAuth?
  {
    match DiffieHellman(c.entropy[32..], c.peerX)
    case Ok(dh) => Extract(c.salt, KemBytes(Shared(c.ek, c.entropy[..32])), DhBytes(dh))
    case Err(_) => []
  }

  lemma EncapsulateComputes(ev: Valuation, s: Session, c: Call)
    requires Typed(c) && c.CallEncapsulateAuth? && Apply(ev, s, c).out.Ok?
    ensures var o := Apply(ev, s, c);
            o.out.value.SignedReply? &&
            var v, prk := EncapView(c, o.out.value), EncapPrk(c);
            Bounded(v) && o.out.value.tag == EncapTag(v, prk) &&
            o.out.value.signature == Sign(c.own, DigestOf(v, prk), CONTEXT_ENCAPSULATING_SIDE) &&
            o.state == Install(ev, EncapsulatorSplit(Material(v, prk)))
                         .(pending := Some(Pending(DigestOf(v, prk), IdentityFingerprint(c.peer),
                                                   KeygenConfirmationKey(MaterialOf(v, prk)))))
  {
  }

  function FinalView(s: Session, c: Call): View
    requires c.CallFinalizeAuth? && s.kemSeed.Some? && s.xSecret.Some?
  {
    View(Ek(s.kemSeed.value), Point(s.xSecret.value), c.ct, c.peerX, VerifyingKeyOf(c.own), c.peer, c.appInfo)
  }

  function FinalPrk(s: Session, c: Call): seq<Byte>
    requires c.CallFinalizeAuth? && s.kemSeed.Some? && s.xSecret.Some?
  {
    match DiffieHellman(s.xSecret.value, c.peerX)
    case Ok(dh) => Extract(c.salt, KemBytes(Decapsulate(s.kemSeed.value, c.ct)), DhBytes(dh))
    case Err(_) => []
  }

  lemma FinalizeComputes(ev: Valuation, s: Session, c: Call)
    requires Typed(c) && c.CallFinalizeAuth? && Apply(ev, s, c).out.Ok?
    ensures var o := Apply(ev, s, c);
            s.kemSeed.Some? && s.xSecret.Some? && o.out.value.Proof? &&
            var v, prk := FinalView(s, c), FinalPrk(s, c);
            Bounded(v) && c.tag == EncapTag(v, prk) &&
            Verifies(c.peer, DigestOf(v, prk), CONTEXT_ENCAPSULATING_SIDE, c.signature) &&
            o.out.value.tag == KeygenTag(v, prk) &&
            o.out.value.signature
                == Sign(c.own, KeygenDigest(DigestOf(v, prk), KeygenTag(v, prk)), CONTEXT_KEYGEN_SIDE) &&
            o.state == Install(ev, KeygenSplit(Material(v, prk)))
  {
  }

  lemma ConfirmComputes(ev: Valuation, s: Session, c: Call)
    requires c.CallConfirmPeer? && Apply(ev, s, c).out.Ok?
    ensures s.pending.Some? && IdentityFingerprint(c.peer) == s.pending.value.peerIdentity
    ensures Verifies(c.peer, KeygenDigest(s.pending.value.digest, c.tag), CONTEXT_KEYGEN_SIDE, c.signature)
    ensures ConfirmationTag(s.pending.value.confirmationKey, CONFIRM_LABEL_KEYGEN_SIDE, s.pending.value.digest)
            == Ok(c.tag)
    ensures Apply(ev, s, c).state == s.(pending := None)
  {
  }

  // ---- The world ----

  datatype Event =
    | DidEncapsulate(session: nat, own: SigningKey, view: View, prk: seq<Byte>, keys: Keys)
    | DidFinalize(session: nat, own: SigningKey, view: View, prk: seq<Byte>, keys: Keys)
    | DidConfirm(session: nat, peer: VerifyingKey, digest: seq<Byte>, keys: Keys)

  /** `seeds` are the key-generation seeds used so far; `log` lists the authenticated successes. */
  datatype World = World(sessions: map<nat, Session>, log: seq<Event>, seeds: set<seq<u8>>)

  const Start := World(map[], [], {})

  function At(w: World, id: nat): Session { if id in w.sessions then w.sessions[id] else New() }

  function KeysOf(s: Session): Keys
    requires s.txKey.Some? && s.rxKey.Some?
  {
    Keys(s.txKey.value, s.rxKey.value)
  }

  function Events(id: nat, s: Session, c: Call, o: Outcome): seq<Event>
    requires Typed(c)
  {
    if o.out.Err? || !o.state.txKey.Some? || !o.state.rxKey.Some? then []
    else match c
      case CallEncapsulateAuth(own, _, _, _, _, _, _) =>
        if o.out.value.SignedReply?
        then [DidEncapsulate(id, own, EncapView(c, o.out.value), EncapPrk(c), KeysOf(o.state))] else []
      case CallFinalizeAuth(own, _, _, _, _, _, _, _) =>
        if s.kemSeed.Some? && s.xSecret.Some?
        then [DidFinalize(id, own, FinalView(s, c), FinalPrk(s, c), KeysOf(o.state))] else []
      case CallConfirmPeer(peer, _, _) =>
        if s.pending.Some? then [DidConfirm(id, peer, s.pending.value.digest, KeysOf(o.state))] else []
      case _ => []
  }

  datatype Move = Move(session: nat, call: Call)

  function Step(ev: Valuation, w: World, m: Move): World
    requires Typed(m.call)
  {
    var s := At(w, m.session);
    var o := Apply(ev, s, m.call);
    World(w.sessions[m.session := o.state], w.log + Events(m.session, s, m.call, o),
          if m.call.CallInitiate? && o.out.Ok? then w.seeds + {m.call.entropy[..64]} else w.seeds)
  }

  /** Some logged call made `key` sign `message` under `context`. */
  ghost predicate HasSigned(log: seq<Event>, key: SigningKey, context: string, message: seq<Byte>) {
    exists i :: 0 <= i < |log| && SignsAt(log[i], key, context, message)
  }

  predicate SignsAt(e: Event, key: SigningKey, context: string, message: seq<Byte>) {
    match e
    case DidEncapsulate(_, own, view, prk, _) =>
      own == key && context == CONTEXT_ENCAPSULATING_SIDE && message == DigestOf(view, prk)
    case DidFinalize(_, own, view, prk, _) =>
      own == key && context == CONTEXT_KEYGEN_SIDE && message == KeygenDigest(DigestOf(view, prk), KeygenTag(view, prk))
    case DidConfirm(_, _, _, _) => false
  }

  ghost predicate Unforged(log: seq<Event>, honest: iset<SigningKey>, signature: Signature) {
    signature.Signed? && signature.key in honest ==> HasSigned(log, signature.key, signature.context, signature.message)
  }

  ghost predicate Admissible(w: World, honest: iset<SigningKey>, m: Move) {
    && Typed(m.call)
    && (m.call.CallFinalizeAuth? ==> Unforged(w.log, honest, m.call.signature))
    && (m.call.CallConfirmPeer? ==> Unforged(w.log, honest, m.call.signature))
  }

  // ---- Agreement ----

  /** The sessions of the two events hold mirrored keys over the same view. */
  predicate Matches(e: Event, f: Event) {
    && e.DidEncapsulate? && f.DidFinalize?
    && e.view == f.view && e.prk == f.prk
    && e.keys.tx == f.keys.rx && e.keys.rx == f.keys.tx
    && VerifyingKeyOf(e.own) == f.view.encap && VerifyingKeyOf(f.own) == e.view.keygen
  }

  ghost predicate HonestVk(honest: iset<SigningKey>, vk: VerifyingKey) {
    exists k :: k in honest && VerifyingKeyOf(k) == vk
  }

  /** `e` confirms the encapsulation at `i`, which the finalize at `f` matches. */
  ghost predicate ConfirmedBy(log: seq<Event>, e: Event, i: int, f: int) {
    && e.DidConfirm? && 0 <= i < |log| && 0 <= f < |log| && Matches(log[i], log[f])
    && log[i].session == e.session && log[i].keys == e.keys && log[f].view.keygen == e.peer
  }

  /**
   A finalize that trusts an honest key has a matching encapsulation; a confirmation that trusts an
   honest key has a finalize matching the encapsulation of that very session.
   */
  ghost predicate Agreed(log: seq<Event>, honest: iset<SigningKey>, e: Event) {
    && (e.DidFinalize? && HonestVk(honest, e.view.encap) ==> exists i :: 0 <= i < |log| && Matches(log[i], e))
    && (e.DidConfirm? && HonestVk(honest, e.peer) ==> exists i, f :: ConfirmedBy(log, e, i, f))
  }

  /** Every event agrees with events logged before it. */
  ghost predicate AllAgreed(log: seq<Event>, honest: iset<SigningKey>) {
    forall j :: 0 <= j < |log| ==> Agreed(log[..j], honest, log[j])
  }

  predicate Genuine(e: Event) {
    match e
    case DidEncapsulate(_, own, view, prk, keys) =>
      Bounded(view) && VerifyingKeyOf(own) == view.encap && keys == EncapsulatorSplit(Material(view, prk))
    case DidFinalize(_, own, view, prk, keys) =>
      Bounded(view) && VerifyingKeyOf(own) == view.keygen && keys == KeygenSplit(Material(view, prk))
    case DidConfirm(_, _, _, _) => true
  }

  ghost predicate AllGenuine(log: seq<Event>) { forall i :: 0 <= i < |log| ==> Genuine(log[i]) }

  /** The pending authentication of a session is the one its own encapsulation logged. */
  predicate PendingFrom(id: nat, s: Session, e: Event) {
    && s.pending.Some? && s.txKey.Some? && s.rxKey.Some?
    && e.DidEncapsulate? && e.session == id && e.keys == KeysOf(s)
    && s.pending.value == Pending(DigestOf(e.view, e.prk), IdentityFingerprint(e.view.keygen),
                                  KeygenConfirmationKey(MaterialOf(e.view, e.prk)))
  }

  ghost predicate PendingLogged(log: seq<Event>, id: nat, s: Session) {
    s.pending.Some? ==> exists i :: 0 <= i < |log| && PendingFrom(id, s, log[i])
  }

  ghost predicate WorldInv(w: World, honest: iset<SigningKey>) {
    && AllGenuine(w.log)
    && AllAgreed(w.log, honest)
    && (forall id :: id in w.sessions ==> PendingLogged(w.log, id, w.sessions[id]))
  }

  lemma PendingGrows(log: seq<Event>, more: seq<Event>, id: nat, s: Session)
    requires PendingLogged(log, id, s)
    ensures PendingLogged(log + more, id, s)
  {
    if s.pending.Some? {
      var i :| 0 <= i < |log| && PendingFrom(id, s, log[i]);
      assert PendingFrom(id, s, (log + more)[i]);
    }
  }

  /**
   Only an authenticated encapsulation creates a pending authentication; other calls keep it with its keys or
   drop it.
   */
  lemma PendingOrigin(ev: Valuation, s: Session, c: Call)
    requires Typed(c) && Apply(ev, s, c).state.pending.Some?
    requires !(c.CallEncapsulateAuth? && Apply(ev, s, c).out.Ok?)
    ensures var s' := Apply(ev, s, c).state;
            s'.pending == s.pending && s'.txKey == s.txKey && s'.rxKey == s.rxKey
  {
    if Apply(ev, s, c).out.Err? {
      FailingCallIsCleanOrFatal(ev, s, c);
    }
  }

  /** A verified signature of an honest key was made by a logged call of that key. */
  lemma SignatureWasMade(log: seq<Event>, honest: iset<SigningKey>, vk: VerifyingKey, message: seq<Byte>,
                         context: string, signature: Signature) returns (i: int)
    requires Unforged(log, honest, signature) && HonestVk(honest, vk) && Verifies(vk, message, context, signature)
    ensures 0 <= i < |log| && SignsAt(log[i], signature.key, context, message) && VerifyingKeyOf(signature.key) == vk
  {
    var k :| k in honest && VerifyingKeyOf(k) == vk;
    assert k == signature.key;
    i :| 0 <= i < |log| && SignsAt(log[i], signature.key, context, message);
  }

  lemma FinalizeHasEncapsulation(log: seq<Event>, honest: iset<SigningKey>, f: Event,
                                 signature: Signature) returns (i: int)
    requires AllGenuine(log) && f.DidFinalize? && Genuine(f)
    requires Unforged(log, honest, signature) && HonestVk(honest, f.view.encap)
    requires Verifies(f.view.encap, DigestOf(f.view, f.prk), CONTEXT_ENCAPSULATING_SIDE, signature)
    ensures 0 <= i < |log| && Matches(log[i], f)
  {
    i := SignatureWasMade(log, honest, f.view.encap, DigestOf(f.view, f.prk), CONTEXT_ENCAPSULATING_SIDE, signature);
    assert Genuine(log[i]) && |CONTEXT_ENCAPSULATING_SIDE| != |CONTEXT_KEYGEN_SIDE|;
    DigestDeterminesAll(f.view, f.prk, log[i].view, log[i].prk);
  }

  lemma ConfirmHasFinalize(log: seq<Event>, honest: iset<SigningKey>, e: Event, tag: seq<Byte>, signature: Signature)
      returns (f: int)
    requires AllGenuine(log) && e.DidEncapsulate? && Genuine(e)
    requires Unforged(log, honest, signature) && HonestVk(honest, e.view.keygen)
    requires Verifies(e.view.keygen, KeygenDigest(DigestOf(e.view, e.prk), tag), CONTEXT_KEYGEN_SIDE, signature)
    ensures 0 <= f < |log| && Matches(e, log[f])
  {
    f := SignatureWasMade(log, honest, e.view.keygen, KeygenDigest(DigestOf(e.view, e.prk), tag), CONTEXT_KEYGEN_SIDE,
                          signature);
    var k := log[f];
    assert Genuine(k) && |CONTEXT_ENCAPSULATING_SIDE| != |CONTEXT_KEYGEN_SIDE|;
    KeygenDigestInjective(DigestOf(e.view, e.prk), tag, DigestOf(k.view, k.prk), KeygenTag(k.view, k.prk));
    DigestDeterminesAll(e.view, e.prk, k.view, k.prk);
  }

  lemma FinalizeAgrees(ev: Valuation, w: World, honest: iset<SigningKey>, m: Move)
    requires AllGenuine(w.log) && Admissible(w, honest, m)
    requires m.call.CallFinalizeAuth? && Apply(ev, At(w, m.session), m.call).out.Ok?
    ensures var s, o := At(w, m.session), Apply(ev, At(w, m.session), m.call);
            |Events(m.session, s, m.call, o)| == 1 &&
            Genuine(Events(m.session, s, m.call, o)[0]) && Agreed(w.log, honest, Events(m.session, s, m.call, o)[0])
  {
    var s, c := At(w, m.session), m.call;
    FinalizeComputes(ev, s, c);
    var f := Events(m.session, s, c, Apply(ev, s, c))[0];
    if HonestVk(honest, c.peer) {
      var i := FinalizeHasEncapsulation(w.log, honest, f, c.signature);
    }
  }

  /** A session with a logged pending authentication that verifies an honest proof is confirmed by a finalize. */
  lemma PendingConfirmed(log: seq<Event>, honest: iset<SigningKey>, id: nat, s: Session, peer: VerifyingKey,
                         tag: seq<Byte>, signature: Signature)
    requires AllGenuine(log) && s.pending.Some? && PendingLogged(log, id, s) && s.txKey.Some? && s.rxKey.Some?
    requires IdentityFingerprint(peer) == s.pending.value.peerIdentity
    requires Unforged(log, honest, signature)
    requires Verifies(peer, KeygenDigest(s.pending.value.digest, tag), CONTEXT_KEYGEN_SIDE, signature)
    ensures Agreed(log, honest, DidConfirm(id, peer, s.pending.value.digest, KeysOf(s)))
  {
    var i :| 0 <= i < |log| && PendingFrom(id, s, log[i]);
    assert Genuine(log[i]);
    IdentityInjective(peer, log[i].view.keygen);
    if HonestVk(honest, peer) {
      var f := ConfirmHasFinalize(log, honest, log[i], tag, signature);
      assert ConfirmedBy(log, DidConfirm(id, peer, s.pending.value.digest, KeysOf(s)), i, f);
    }
  }

  lemma ConfirmAgrees(ev: Valuation, w: World, honest: iset<SigningKey>, m: Move)
    requires AllGenuine(w.log) && PendingLogged(w.log, m.session, At(w, m.session)) && Admissible(w, honest, m)
    requires m.call.CallConfirmPeer? && Apply(ev, At(w, m.session), m.call).out.Ok?
    ensures var s, o := At(w, m.session), Apply(ev, At(w, m.session), m.call);
            |Events(m.session, s, m.call, o)| == 1 && Agreed(w.log, honest, Events(m.session, s, m.call, o)[0])
  {
    var s, c := At(w, m.session), m.call;
    ConfirmComputes(ev, s, c);
    PendingConfirmed(w.log, honest, m.session, s, c.peer, c.tag, c.signature);
  }

  lemma EncapsulateLogs(ev: Valuation, s: Session, id: nat, c: Call)
    requires Typed(c) && c.CallEncapsulateAuth? && Apply(ev, s, c).out.Ok?
    ensures var o := Apply(ev, s, c);
            |Events(id, s, c, o)| == 1 && Events(id, s, c, o)[0].DidEncapsulate? && Genuine(Events(id, s, c, o)[0]) &&
            PendingFrom(id, o.state, Events(id, s, c, o)[0])
  {
    EncapsulateComputes(ev, s, c);
  }

  /** The events of one step are genuine and agreed. */
  lemma NewEventsAgree(ev: Valuation, w: World, honest: iset<SigningKey>, m: Move)
    requires WorldInv(w, honest) && Admissible(w, honest, m)
    ensures var more := Events(m.session, At(w, m.session), m.call, Apply(ev, At(w, m.session), m.call));
            |more| <= 1 && (more != [] ==> Genuine(more[0]) && Agreed(w.log, honest, more[0]))
  {
    var s, c := At(w, m.session), m.call;
    if Apply(ev, s, c).out.Ok? {
      if c.CallFinalizeAuth? {
        FinalizeAgrees(ev, w, honest, m);
      } else if c.CallConfirmPeer? {
        assert PendingLogged(w.log, m.session, s);
        ConfirmAgrees(ev, w, honest, m);
      } else if c.CallEncapsulateAuth? {
        EncapsulateLogs(ev, s, m.session, c);
      }
    }
  }

  lemma NewPendingLogged(ev: Valuation, w: World, honest: iset<SigningKey>, m: Move)
    requires WorldInv(w, honest) && Admissible(w, honest, m)
    ensures PendingLogged(Step(ev, w, m).log, m.session, Apply(ev, At(w, m.session), m.call).state)
  {
    var s, c := At(w, m.session), m.call;
    var o := Apply(ev, s, c);
    var more := Events(m.session, s, c, o);
    if o.state.pending.Some? {
      if c.CallEncapsulateAuth? && o.out.Ok? {
        EncapsulateLogs(ev, s, m.session, c);
        assert PendingFrom(m.session, o.state, (w.log + more)[|w.log|]);
      } else {
        PendingOrigin(ev, s, c);
        assert PendingLogged(w.log, m.session, s);
        PendingGrows(w.log, more, m.session, s);
        var i :| 0 <= i < |w.log + more| && PendingFrom(m.session, s, (w.log + more)[i]);
        assert PendingFrom(m.session, o.state, (w.log + more)[i]);
      }
    }
  }

  lemma StepKeepsInv(ev: Valuation, w: World, honest: iset<SigningKey>, m: Move)
    requires WorldInv(w, honest) && Admissible(w, honest, m)
    ensures WorldInv(Step(ev, w, m), honest)
  {
    var more := Events(m.session, At(w, m.session), m.call, Apply(ev, At(w, m.session), m.call));
    var w' := Step(ev, w, m);
    NewEventsAgree(ev, w, honest, m);
    forall j | 0 <= j < |w'.log| ensures Agreed(w'.log[..j], honest, w'.log[j]) && Genuine(w'.log[j]) {
      assert w'.log[j] == if j < |w.log| then w.log[j] else more[0];
      assert w'.log[..j] == w.log[..j];
      assert j == |w.log| ==> w.log[..j] == w.log;
    }
    NewPendingLogged(ev, w, honest, m);
    forall id | id in w'.sessions ensures PendingLogged(w'.log, id, w'.sessions[id]) {
      if id != m.session {
        PendingGrows(w.log, more, id, w.sessions[id]);
      }
    }
  }

  function Run(ev: Valuation, w: World, moves: seq<Move>): World
    requires forall i :: 0 <= i < |moves| ==> Typed(moves[i].call)
    decreases |moves|
  {
    if moves == [] then w else Run(ev, Step(ev, w, moves[0]), moves[1..])
  }

  /** Every move is admissible where it is made. */
  ghost predicate AdmissibleRun(ev: Valuation, w: World, honest: iset<SigningKey>, moves: seq<Move>)
    decreases |moves|
  {
    moves != [] ==> Admissible(w, honest, moves[0]) && AdmissibleRun(ev, Step(ev, w, moves[0]), honest, moves[1..])
  }

  lemma {:induction false} RunKeepsInv(ev: Valuation, w: World, honest: iset<SigningKey>, moves: seq<Move>)
    requires WorldInv(w, honest) && AdmissibleRun(ev, w, honest, moves)
    requires forall i :: 0 <= i < |moves| ==> Typed(moves[i].call)
    ensures WorldInv(Run(ev, w, moves), honest)
    decreases |moves|
  {
    if moves != [] {
      StepKeepsInv(ev, w, honest, moves[0]);
      RunKeepsInv(ev, Step(ev, w, moves[0]), honest, moves[1..]);
    }
  }

  /** Agreement: on every run, of any length, over any number of sessions, against any attacker. */
  lemma AgreementOnEveryRun(ev: Valuation, honest: iset<SigningKey>, moves: seq<Move>)
    requires forall i :: 0 <= i < |moves| ==> Typed(moves[i].call)
    requires AdmissibleRun(ev, Start, honest, moves)
    ensures AllAgreed(Run(ev, Start, moves).log, honest)
  {
    RunKeepsInv(ev, Start, honest, moves);
  }

  // ---- Each encapsulation is finalized at most once ----

  /** Key-generation seeds are never reused. */
  predicate FreshSeed(w: World, m: Move) {
    m.call.CallInitiate? && |m.call.entropy| == 96 ==> m.call.entropy[..64] !in w.seeds
  }

  ghost predicate SeedInv(w: World) {
    && (forall id :: id in w.sessions && w.sessions[id].kemSeed.Some? ==> w.sessions[id].kemSeed.value in w.seeds)
    && (forall a, b :: a in w.sessions && b in w.sessions && a != b && w.sessions[a].kemSeed.Some? ==>
          w.sessions[a].kemSeed != w.sessions[b].kemSeed)
    && (forall j :: 0 <= j < |w.log| && w.log[j].DidFinalize? ==> SeedSpent(w, w.log[j].view.ek))
    && (forall i, j :: 0 <= i < j < |w.log| && w.log[i].DidFinalize? && w.log[j].DidFinalize? ==>
          w.log[i].view.ek != w.log[j].view.ek)
  }

  /** The encapsulation key belongs to a used seed that no session still holds. */
  ghost predicate SeedSpent(w: World, ek: MlKemPublic) {
    ek.Ek? && ek.seed in w.seeds && forall id :: id in w.sessions ==> w.sessions[id].kemSeed != Some(ek.seed)
  }

  /** A call takes a new seed only in key generation, and a finalize that succeeds gives its seed up. */
  lemma SeedDiscipline(ev: Valuation, s: Session, id: nat, c: Call)
    requires Typed(c)
    ensures var o := Apply(ev, s, c);
            && (o.state.kemSeed.Some? ==>
                  (o.state.kemSeed == s.kemSeed
                   || (c.CallInitiate? && o.out.Ok? && o.state.kemSeed == Some(c.entropy[..64]))))
            && |Events(id, s, c, o)| <= 1
            && (Events(id, s, c, o) != [] && Events(id, s, c, o)[0].DidFinalize? ==>
                 s.kemSeed.Some? && Events(id, s, c, o)[0].view.ek == Ek(s.kemSeed.value) && o.state.kemSeed.None?)
  {
    if Apply(ev, s, c).out.Err? {
      FailingCallIsCleanOrFatal(ev, s, c);
    } else if c.CallFinalizeAuth? {
      FinalizeComputes(ev, s, c);
    }
  }

  lemma StepKeepsSeedInv(ev: Valuation, w: World, m: Move)
    requires SeedInv(w) && Typed(m.call) && FreshSeed(w, m)
    ensures SeedInv(Step(ev, w, m))
  {
    var s := At(w, m.session);
    var o := Apply(ev, s, m.call);
    var more := Events(m.session, s, m.call, o);
    var w' := Step(ev, w, m);
    SeedDiscipline(ev, s, m.session, m.call);
    SeedStep(w, w', m.session, o.state.kemSeed, more);
  }

  /** The seed bookkeeping of one step, whatever the call was. */
  lemma SeedStep(w: World, w': World, id: nat, seed: Option<seq<u8>>, more: seq<Event>)
    requires SeedInv(w) && w'.log == w.log + more && |more| <= 1 && w.seeds <= w'.seeds
    requires w'.sessions.Keys == w.sessions.Keys + {id} && w'.sessions[id].kemSeed == seed
    requires forall k :: k in w.sessions && k != id ==> w'.sessions[k] == w.sessions[k]
    requires seed.Some? ==> seed == At(w, id).kemSeed || (seed.value !in w.seeds && seed.value in w'.seeds)
    requires more != [] && more[0].DidFinalize? ==>
               At(w, id).kemSeed.Some? && more[0].view.ek == Ek(At(w, id).kemSeed.value) && seed.None?
    ensures SeedInv(w')
  {
    forall j | 0 <= j < |w'.log| && w'.log[j].DidFinalize? ensures SeedSpent(w', w'.log[j].view.ek) {
      assert w'.log[j] == if j < |w.log| then w.log[j] else more[0];
      if j < |w.log| {
        assert SeedSpent(w, w.log[j].view.ek);
      }
    }
    forall i, j | 0 <= i < j < |w'.log| && w'.log[i].DidFinalize? && w'.log[j].DidFinalize?
      ensures w'.log[i].view.ek != w'.log[j].view.ek
    {
      assert w'.log[i] == w.log[i] && SeedSpent(w, w.log[i].view.ek);
      assert w'.log[j] == if j < |w.log| then w.log[j] else more[0];
    }
  }

  ghost predicate FreshRun(ev: Valuation, w: World, moves: seq<Move>)
    requires forall i :: 0 <= i < |moves| ==> Typed(moves[i].call)
    decreases |moves|
  {
    moves != [] ==> FreshSeed(w, moves[0]) && FreshRun(ev, Step(ev, w, moves[0]), moves[1..])
  }

  lemma {:induction false} RunKeepsSeedInv(ev: Valuation, w: World, moves: seq<Move>)
    requires forall i :: 0 <= i < |moves| ==> Typed(moves[i].call)
    requires SeedInv(w) && FreshRun(ev, w, moves)
    ensures SeedInv(Run(ev, w, moves))
    decreases |moves|
  {
    if moves != [] {
      StepKeepsSeedInv(ev, w, moves[0]);
      RunKeepsSeedInv(ev, Step(ev, w, moves[0]), moves[1..]);
    }
  }

  /** Agreement is injective: no two finalizes match the same encapsulation. */
  lemma AgreementIsInjective(ev: Valuation, moves: seq<Move>, e: nat, f: nat, g: nat)
    requires forall i :: 0 <= i < |moves| ==> Typed(moves[i].call)
    requires FreshRun(ev, Start, moves)
    requires var log := Run(ev, Start, moves).log;
             e < |log| && f < |log| && g < |log| && Matches(log[e], log[f]) && Matches(log[e], log[g])
    ensures f == g
  {
    RunKeepsSeedInv(ev, Start, moves);
  }
}
