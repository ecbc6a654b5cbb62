/**
 Packets in the attacker's world: any number of sessions, any public calls in any order, handshakes
 and packets alike, sessions re-keyed at will.

 Beside what the handshake assumes of signatures, the attacker cannot make a tag under a key of a
 session that had authenticated an honest peer: such a tag was made by some session's send. Entropy
 given to key generation and to encapsulation is never used twice.
 */
module AuthenticTraffic {
  import opened Words
  import opened SymbolicCrypto
  import opened Wrappers
  import opened AuthHandshake
  import opened HybridKdf
  import opened ReplayWindow
  import opened Aead
  import opened Sessions
  import opened SessionRuns
  import H = HandshakeAgreement
  import opened SecureChannel

  // ---- Key installations ----

  /** One installation of keys in a session, with what they were derived from. */
  datatype Install =
    | AsEncapsulator(session: nat, keys: Keys, prk: seq<Byte>, ek: MlKemPublic, entropy: seq<u8>, info: seq<Byte>)
    | AsKeygen(session: nat, keys: Keys, inner: seq<Byte>, seed: seq<u8>, salt: seq<Byte>, ct: MlKemCiphertext,
               dh: DhSecret)

  predicate Proper(x: Install) {
    match x
    case AsEncapsulator(_, keys, prk, ek, entropy, info) =>
      |entropy| == 64 &&
      keys == EncapsulatorSplit(SessionMaterial(prk,
                                                HandshakeTranscript(Ct(ek, entropy[..32]), Point(entropy[32..]), info)))
    case AsKeygen(_, keys, inner, seed, salt, ct, dh) =>
      keys == KeygenSplit(SessionMaterial(Extract(salt, KemBytes(Decapsulate(seed, ct)), DhBytes(dh)), inner))
  }

  /** The first bytes of a transmit key's halves name the role, the PRK and the info. */
  lemma KeyOrigin(okm: seq<Byte>, prk: seq<Byte>, info: seq<Byte>)
    requires okm == SessionMaterial(prk, info)
    ensures EncKey(EncapsulatorSplit(okm).tx)[0] == OkmByte(prk, info, 32)
    ensures MacKey(EncapsulatorSplit(okm).tx)[0] == OkmByte(prk, info, 64)
    ensures EncKey(KeygenSplit(okm).tx)[0] == OkmByte(prk, info, 0)
    ensures MacKey(KeygenSplit(okm).tx)[0] == OkmByte(prk, info, 96)
  {
    var (e, k) := (EncapsulatorSplit(okm).tx, KeygenSplit(okm).tx);
    assert e[0] == okm[32] && e[32] == okm[64] && k[0] == okm[0] && k[32] == okm[96];
    assert EncKey(e)[0] == e[0] && MacKey(e)[0] == e[32] && EncKey(k)[0] == k[0] && MacKey(k)[0] == k[32];
  }

  predicate SharesKey(x: Key, y: Key) { EncKey(x) == EncKey(y) || MacKey(x) == MacKey(y) }

  function PrkOf(x: Install): seq<Byte> {
    if x.AsEncapsulator? then x.prk else Extract(x.salt, KemBytes(Decapsulate(x.seed, x.ct)), DhBytes(x.dh))
  }

  function InnerOf(x: Install): seq<Byte>
    requires Proper(x)
  {
    if x.AsKeygen? then x.inner else HandshakeTranscript(Ct(x.ek, x.entropy[..32]), Point(x.entropy[32..]), x.info)
  }

  lemma SeedDetermined(seed: seq<u8>, ct: MlKemCiphertext, seed': seq<u8>, ct': MlKemCiphertext)
    requires KemBytes(Decapsulate(seed, ct)) == KemBytes(Decapsulate(seed', ct'))
    ensures seed == seed'
  {
    assert KemBytes(Decapsulate(seed, ct))[0] == KemBytes(Decapsulate(seed', ct'))[0];
  }

  lemma SameKeySameOrigin(x: Install, y: Install)
    requires Proper(x) && Proper(y) && SharesKey(x.keys.tx, y.keys.tx)
    ensures x.AsEncapsulator? == y.AsEncapsulator? && PrkOf(x) == PrkOf(y) && InnerOf(x) == InnerOf(y)
  {
    KeyOrigin(SessionMaterial(PrkOf(x), InnerOf(x)), PrkOf(x), InnerOf(x));
    KeyOrigin(SessionMaterial(PrkOf(y), InnerOf(y)), PrkOf(y), InnerOf(y));
    assert EncKey(x.keys.tx)[0] == OkmByte(PrkOf(x), InnerOf(x), if x.AsEncapsulator? then 32 else 0);
    assert EncKey(y.keys.tx)[0] == OkmByte(PrkOf(y), InnerOf(y), if y.AsEncapsulator? then 32 else 0);
    assert MacKey(x.keys.tx)[0] == OkmByte(PrkOf(x), InnerOf(x), if x.AsEncapsulator? then 64 else 96);
    assert MacKey(y.keys.tx)[0] == OkmByte(PrkOf(y), InnerOf(y), if y.AsEncapsulator? then 64 else 96);
  }

  /** Installations that send under one encryption key or one MAC key have one role and were made from one secret. */
  lemma SameKeySameSecret(x: Install, y: Install)
    requires Proper(x) && Proper(y) && SharesKey(x.keys.tx, y.keys.tx)
    ensures SameSecret(x, y)
  {
    SameKeySameOrigin(x, y);
    if x.AsEncapsulator? {
      InnerInjective(Ct(x.ek, x.entropy[..32]), Point(x.entropy[32..]), x.info,
                     Ct(y.ek, y.entropy[..32]), Point(y.entropy[32..]), y.info);
      assert x.entropy == x.entropy[..32] + x.entropy[32..] && y.entropy == y.entropy[..32] + y.entropy[32..];
    } else {
      ExtractInjective(x.salt, KemBytes(Decapsulate(x.seed, x.ct)), DhBytes(x.dh),
                       y.salt, KemBytes(Decapsulate(y.seed, y.ct)), DhBytes(y.dh));
      SeedDetermined(x.seed, x.ct, y.seed, y.ct);
    }
  }

  // ---- The world with its packets ----

  /**
   Packets name the installation they were sent or accepted under; a sent one is what `encrypt_packet` returned,
   `Handed` is a transmit nonce given to the host, and `known` is how much was logged at acceptance.
   */
  datatype Packet =
    | Sent(install: nat, sequence: u64, message: Message, ciphertext: Slice, tag: seq<Byte>)
    | Handed(install: nat, sequence: u64)
    | Got(install: nat, sequence: u64, message: Message, known: nat)

  /** `current` is each session's last installation, `committed` the sequences its window has been told of. */
  datatype Traffic = Traffic(
    w: H.World, installs: seq<Install>, current: map<nat, nat>, packets: seq<Packet>,
    committed: map<nat, set<u64>>, entropies: set<seq<u8>>)

  const Start := Traffic(H.Start, [], map[], [], map[], {})

  function DhOf(r: Result<DhSecret>): DhSecret { if r.Ok? then r.value else Dh(multiset{}) }

  predicate Encapsulates(c: Call) { c.CallEncapsulatePlain? || c.CallEncapsulateAuth? }

  predicate Finalizes(c: Call) { c.CallFinalizePlain? || c.CallFinalizeAuth? }

  /** The binding an authenticated call derives its keys under, and the info of a plain one. */
  function InfoOf(s: Session, c: Call): seq<Byte>
    requires Encapsulates(c) || (Finalizes(c) && s.kemSeed.Some? && s.xSecret.Some?)
  {
    match c
    case CallEncapsulateAuth(own, peer, ek, peerX, _, _, appInfo) =>
      HashParts(BindingParts(ek, peerX, IdentityFingerprint(peer), IdentityFingerprint(VerifyingKeyOf(own)), appInfo))
    case CallFinalizeAuth(own, peer, _, _, _, _, _, appInfo) =>
      HashParts(BindingParts(Ek(s.kemSeed.value), Point(s.xSecret.value), IdentityFingerprint(VerifyingKeyOf(own)),
                             IdentityFingerprint(peer), appInfo))
    case _ => c.info
  }

  /** The installation a successful call makes, if it makes one. */
  function Installs(id: nat, s: Session, c: Call, o: Outcome): seq<Install>
    requires Typed(c)
  {
    if o.out.Err? || o.state.txKey.None? || o.state.rxKey.None? then []
    else if Encapsulates(c) then
      var dh := DhOf(DiffieHellman(c.entropy[32..], c.peerX));
      [AsEncapsulator(id, H.KeysOf(o.state), Extract(c.salt, KemBytes(Shared(c.ek, c.entropy[..32])), DhBytes(dh)),
                      c.ek, c.entropy, InfoOf(s, c))]
    else if Finalizes(c) && s.kemSeed.Some? && s.xSecret.Some? then
      [AsKeygen(id, H.KeysOf(o.state), HandshakeTranscript(c.ct, c.peerX, InfoOf(s, c)), s.kemSeed.value, c.salt, c.ct,
                DhOf(DiffieHellman(s.xSecret.value, c.peerX)))]
    else []
  }

  function Packets(t: Traffic, id: nat, s: Session, c: Call, o: Outcome): seq<Packet> {
    if id !in t.current || o.out.Err? then []
    else match c
      case CallEncrypt(aad, plaintext, _) =>
        if o.out.value.Packet?
        then [Sent(t.current[id], SequenceOf(o.out.value.nonce), Message(aad, plaintext), o.out.value.ciphertext,
                   o.out.value.tag)]
        else []
      case CallNextNonce =>
        if s.txKey.Some? && o.out.value.Issued? then [Handed(t.current[id], SequenceOf(o.out.value.nonce))] else []
      case CallDecrypt(aad, _, nonce, _, _) =>
        if o.out.value.Plain? then [Got(t.current[id], SequenceOf(nonce), Message(aad, o.out.value.plaintext),
                                        |t.w.log|)]
        else []
      case _ => []
  }

  function Committed(t: Traffic, id: nat): set<u64> { if id in t.committed then t.committed[id] else {} }

  function NextCommitted(before: set<u64>, s: Session, c: Call, o: Outcome): set<u64> {
    if c.CallCommitNonce? || (c.CallDecrypt? && o.out.Ok?) then before + {SequenceOf(c.nonce)}
    else if o.state.window == s.window then before else {}
  }

  function Step(ev: Valuation, t: Traffic, m: H.Move): Traffic
    requires Typed(m.call)
  {
    var (id, c, s) := (m.session, m.call, H.At(t.w, m.session));
    var o := Apply(ev, s, c);
    var made := Installs(id, s, c, o);
    Traffic(H.Step(ev, t.w, m), t.installs + made,
            if made == [] then t.current else t.current[id := |t.installs|],
            t.packets + Packets(t, id, s, c, o),
            t.committed[id := NextCommitted(Committed(t, id), s, c, o)],
            if Encapsulates(c) && o.out.Ok? then t.entropies + {c.entropy} else t.entropies)
  }

  // ---- What a call does to a session's keys and window ----

  /** A call installs the keys it derived, keeps the ones there were, or leaves none. */
  ghost predicate KeysFrom(ev: Valuation, id: nat, s: Session, c: Call)
    requires Typed(c)
  {
    var o := Apply(ev, s, c);
    var made := Installs(id, s, c, o);
    if made != [] then |made| == 1 && Proper(made[0]) && made[0].session == id
                      && o.state.txKey == Some(made[0].keys.tx) && o.state.rxKey == Some(made[0].keys.rx)
    else (o.state.txKey == s.txKey && o.state.rxKey == s.rxKey) || (o.state.txKey.None? && o.state.rxKey.None?)
  }

  lemma EncapsulateKeys(ev: Valuation, id: nat, s: Session, c: Call)
    requires Typed(c) && Encapsulates(c)
    ensures KeysFrom(ev, id, s, c)
  {
    if Apply(ev, s, c).out.Err? {
      FailingCallIsCleanOrFatal(ev, s, c);
    }
  }

  lemma FinalizePlainKeys(ev: Valuation, id: nat, s: Session, c: Call)
    requires Typed(c) && c.CallFinalizePlain?
    ensures KeysFrom(ev, id, s, c)
  {
  }

  lemma FinalizeAuthKeys(ev: Valuation, id: nat, s: Session, c: Call)
    requires Typed(c) && c.CallFinalizeAuth?
    ensures KeysFrom(ev, id, s, c)
  {
    if Apply(ev, s, c).out.Err? {
      FailingCallIsCleanOrFatal(ev, s, c);
    } else {
      H.FinalizeComputes(ev, s, c);
    }
  }

  lemma CallKeys(ev: Valuation, id: nat, s: Session, c: Call)
    requires Typed(c)
    ensures KeysFrom(ev, id, s, c)
  {
    if Encapsulates(c) {
      EncapsulateKeys(ev, id, s, c);
    } else if c.CallFinalizePlain? {
      FinalizePlainKeys(ev, id, s, c);
    } else if c.CallFinalizeAuth? {
      FinalizeAuthKeys(ev, id, s, c);
    }
  }

  predicate Commits(c: Call, o: Outcome) { c.CallCommitNonce? || (c.CallDecrypt? && o.out.Ok?) }

  /** A call that commits nothing keeps the window, or empties it together with a change of keys. */
  ghost predicate WindowKept(ev: Valuation, id: nat, s: Session, c: Call)
    requires Typed(c)
  {
    var o := Apply(ev, s, c);
    Commits(c, o) || o.state.window == s.window
    || (o.state.window == Empty() && (Installs(id, s, c, o) != [] || o.state.txKey.None?))
  }

  lemma HandshakeWindow(ev: Valuation, id: nat, s: Session, c: Call)
    requires Typed(c) && (Encapsulates(c) || Finalizes(c) || c.CallConfirmPeer?)
    ensures WindowKept(ev, id, s, c)
  {
    if Apply(ev, s, c).out.Err? {
      FailingCallIsCleanOrFatal(ev, s, c);
    } else if c.CallFinalizeAuth? {
      H.FinalizeComputes(ev, s, c);
    }
  }

  lemma CallWindow(ev: Valuation, id: nat, s: Session, c: Call)
    requires Typed(c)
    ensures WindowKept(ev, id, s, c)
  {
    if Encapsulates(c) || Finalizes(c) || c.CallConfirmPeer? {
      HandshakeWindow(ev, id, s, c);
    }
  }

  /** What a commit does, and that an accepted packet was unseen. */
  lemma CommitWindow(ev: Valuation, s: Session, c: Call, committed: set<u64>)
    requires Typed(c) && Commits(c, Apply(ev, s, c)) && Represents(s.window, committed)
    ensures Represents(Apply(ev, s, c).state.window, committed + {SequenceOf(c.nonce)})
    ensures c.CallDecrypt? ==> SequenceOf(c.nonce) !in committed
    ensures Installs(0, s, c, Apply(ev, s, c)) == []
  {
    CommitRepresents(s.window, committed, SequenceOf(c.nonce));
    if c.CallDecrypt? {
      AcceptsExactlyUnseen(s.window, committed, c.nonce);
    }
  }

  lemma EmptyRepresents()
    ensures Represents(Empty(), {})
  {
  }

  // ---- Secrets are used once ----

  ghost predicate SecretOf(t: Traffic, x: Install) {
    match x
    case AsEncapsulator(_, _, _, _, entropy, _) => entropy in t.entropies
    case AsKeygen(_, _, _, seed, _, _, _) => H.SeedSpent(t.w, Ek(seed))
  }

  predicate SameSecret(x: Install, y: Install) {
    || (x.AsEncapsulator? && y.AsEncapsulator? && x.entropy == y.entropy)
    || (x.AsKeygen? && y.AsKeygen? && x.seed == y.seed)
  }

  ghost predicate InstallsInv(t: Traffic) {
    && (forall a :: 0 <= a < |t.installs| ==> Proper(t.installs[a]) && SecretOf(t, t.installs[a]))
    && (forall a, b :: 0 <= a < b < |t.installs| ==> !SameSecret(t.installs[a], t.installs[b]))
  }

  /** Neither kind of entropy is given twice. */
  predicate Fresh(t: Traffic, m: H.Move) {
    H.FreshSeed(t.w, m) && (Encapsulates(m.call) ==> m.call.entropy !in t.entropies)
  }

  lemma InstallIsUnique(t: Traffic, a: nat, b: nat)
    requires InstallsInv(t) && a < |t.installs| && b < |t.installs|
    requires SharesKey(t.installs[a].keys.tx, t.installs[b].keys.tx)
    ensures a == b
  {
    SameKeySameSecret(t.installs[a], t.installs[b]);
  }

  /** A finalize, plain or authenticated, gives its seed up; a seed comes only from key generation. */
  lemma SeedMoves(ev: Valuation, id: nat, s: Session, c: Call)
    requires Typed(c)
    ensures var o := Apply(ev, s, c);
            && (o.state.kemSeed.Some? ==>
                  (o.state.kemSeed == s.kemSeed
                   || (c.CallInitiate? && o.out.Ok? && o.state.kemSeed == Some(c.entropy[..64]))))
            && (forall x :: x in Installs(id, s, c, o) && x.AsKeygen? ==>
                  s.kemSeed == Some(x.seed) && o.state.kemSeed.None?)
  {
    H.SeedDiscipline(ev, s, id, c);
    if Apply(ev, s, c).out.Ok? && c.CallFinalizeAuth? {
      H.FinalizeComputes(ev, s, c);
    }
  }

  lemma SpentStays(ev: Valuation, t: Traffic, m: H.Move, seed: seq<u8>)
    requires Typed(m.call) && H.FreshSeed(t.w, m) && H.SeedSpent(t.w, Ek(seed))
    ensures H.SeedSpent(H.Step(ev, t.w, m), Ek(seed))
  {
    SeedMoves(ev, m.session, H.At(t.w, m.session), m.call);
  }

  lemma SpentNow(ev: Valuation, t: Traffic, m: H.Move, x: Install)
    requires Typed(m.call) && H.SeedInv(t.w) && x.AsKeygen?
    requires x in Installs(m.session, H.At(t.w, m.session), m.call, Apply(ev, H.At(t.w, m.session), m.call))
    ensures H.SeedSpent(H.Step(ev, t.w, m), Ek(x.seed)) && !H.SeedSpent(t.w, Ek(x.seed))
  {
    SeedMoves(ev, m.session, H.At(t.w, m.session), m.call);
    assert H.At(t.w, m.session).kemSeed == Some(x.seed);
    assert m.session in t.w.sessions;
  }

  /** A new installation is proper and made from a secret no earlier one used. */
  lemma MadeIsNew(ev: Valuation, t: Traffic, m: H.Move, x: Install)
    requires Typed(m.call) && Fresh(t, m) && H.SeedInv(t.w)
    requires x in Installs(m.session, H.At(t.w, m.session), m.call, Apply(ev, H.At(t.w, m.session), m.call))
    ensures Proper(x) && SecretOf(Step(ev, t, m), x) && !SecretOf(t, x)
  {
    CallKeys(ev, m.session, H.At(t.w, m.session), m.call);
    if x.AsKeygen? {
      SpentNow(ev, t, m, x);
    }
  }

  lemma SecretStays(ev: Valuation, t: Traffic, m: H.Move, x: Install)
    requires Typed(m.call) && Fresh(t, m) && SecretOf(t, x)
    ensures SecretOf(Step(ev, t, m), x)
  {
    if x.AsKeygen? {
      SpentStays(ev, t, m, x.seed);
    }
  }

  lemma InstallsSnoc(t: Traffic, t': Traffic, x: Install)
    requires InstallsInv(t) && t'.installs == t.installs + [x] && Proper(x) && SecretOf(t', x) && !SecretOf(t, x)
    requires forall a :: 0 <= a < |t.installs| ==> SecretOf(t', t.installs[a])
    ensures InstallsInv(t')
  {
    forall a, b | 0 <= a < b < |t'.installs| ensures !SameSecret(t'.installs[a], t'.installs[b]) {
      assert t'.installs[a] == t.installs[a] && SecretOf(t, t.installs[a]);
      assert b < |t.installs| ==> t'.installs[b] == t.installs[b];
    }
  }

  lemma StepKeepsInstalls(ev: Valuation, t: Traffic, m: H.Move)
    requires Typed(m.call) && Fresh(t, m) && H.SeedInv(t.w) && InstallsInv(t)
    ensures InstallsInv(Step(ev, t, m))
  {
    var s := H.At(t.w, m.session);
    var made := Installs(m.session, s, m.call, Apply(ev, s, m.call));
    forall a | 0 <= a < |t.installs| ensures SecretOf(Step(ev, t, m), t.installs[a]) {
      SecretStays(ev, t, m, t.installs[a]);
    }
    if made == [] {
      assert t.installs + made == t.installs;
    } else {
      CallKeys(ev, m.session, s, m.call);
      MadeIsNew(ev, t, m, made[0]);
      assert made == [made[0]];
      InstallsSnoc(t, Step(ev, t, m), made[0]);
    }
  }

  // ---- Sessions, their installations and the handshake log ----

  ghost predicate Holds(t: Traffic, id: nat, s: Session) {
    s.txKey.Some? || s.rxKey.Some? ==>
      && id in t.current && t.current[id] < |t.installs| && t.installs[t.current[id]].session == id
      && s.txKey == Some(t.installs[t.current[id]].keys.tx) && s.rxKey == Some(t.installs[t.current[id]].keys.rx)
  }

  ghost predicate CurrentInv(t: Traffic) {
    && (forall id :: id in t.w.sessions ==> Holds(t, id, t.w.sessions[id]))
    && (forall id :: id in t.current ==> t.current[id] < |t.installs|)
  }

  predicate Logged(x: Install, e: H.Event) { x.session == e.session && x.keys == e.keys }

  ghost predicate EventInstalled(installs: seq<Install>, e: H.Event) {
    exists a :: 0 <= a < |installs| && Logged(installs[a], e)
  }

  ghost predicate LoggedInv(t: Traffic) {
    forall j :: 0 <= j < |t.w.log| ==> EventInstalled(t.installs, t.w.log[j])
  }

  lemma StepKeepsCurrent(ev: Valuation, t: Traffic, m: H.Move)
    requires Typed(m.call) && CurrentInv(t)
    ensures CurrentInv(Step(ev, t, m))
  {
    var (id, s) := (m.session, H.At(t.w, m.session));
    var t' := Step(ev, t, m);
    CallKeys(ev, id, s, m.call);
    assert Holds(t, id, s);
    forall k | k in t'.w.sessions ensures Holds(t', k, t'.w.sessions[k]) {
      if k != id {
        assert Holds(t, k, t.w.sessions[k]);
      }
    }
  }

  lemma EventMade(ev: Valuation, id: nat, s: Session, c: Call, e: H.Event)
    requires Typed(c) && e in H.Events(id, s, c, Apply(ev, s, c)) && !e.DidConfirm?
    ensures var made := Installs(id, s, c, Apply(ev, s, c));
            |made| == 1 && Logged(made[0], e)
  {
    CallKeys(ev, id, s, c);
  }

  lemma ConfirmKeeps(ev: Valuation, id: nat, s: Session, c: Call, e: H.Event)
    requires Typed(c) && e in H.Events(id, s, c, Apply(ev, s, c)) && e.DidConfirm?
    ensures s.pending.Some? && Apply(ev, s, c).state.pending.None? && e.session == id
    ensures s.txKey == Some(e.keys.tx) && s.rxKey == Some(e.keys.rx)
  {
    H.ConfirmComputes(ev, s, c);
  }

  /** The event of a call is that of the session's installation after it. */
  lemma EventInstalledNow(ev: Valuation, t: Traffic, m: H.Move, e: H.Event)
    requires Typed(m.call) && CurrentInv(t)
    requires e in H.Events(m.session, H.At(t.w, m.session), m.call, Apply(ev, H.At(t.w, m.session), m.call))
    ensures EventInstalled(Step(ev, t, m).installs, e)
  {
    var (id, c, s) := (m.session, m.call, H.At(t.w, m.session));
    if e.DidConfirm? {
      ConfirmKeeps(ev, id, s, c, e);
      assert Holds(t, id, s);
      assert Logged(Step(ev, t, m).installs[t.current[id]], e);
    } else {
      EventMade(ev, id, s, c, e);
      assert Logged(Step(ev, t, m).installs[|t.installs|], e);
    }
  }

  lemma StepKeepsLogged(ev: Valuation, t: Traffic, m: H.Move)
    requires Typed(m.call) && LoggedInv(t) && CurrentInv(t)
    ensures LoggedInv(Step(ev, t, m))
  {
    var (id, c, s) := (m.session, m.call, H.At(t.w, m.session));
    var t' := Step(ev, t, m);
    var more := H.Events(id, s, c, Apply(ev, s, c));
    forall j | 0 <= j < |t'.w.log| ensures EventInstalled(t'.installs, t'.w.log[j]) {
      var e := t'.w.log[j];
      if j < |t.w.log| {
        assert e == t.w.log[j] && EventInstalled(t.installs, e);
        var a :| 0 <= a < |t.installs| && Logged(t.installs[a], e);
        assert Logged(t'.installs[a], e);
      } else {
        assert e == more[j - |t.w.log|];
        EventInstalledNow(ev, t, m, e);
      }
    }
  }

  // ---- An installation is confirmed once ----

  /** The event confirms a session under this transmit key. */
  predicate Confirms(e: H.Event, id: nat, txKey: Option<Key>) {
    e.DidConfirm? && e.session == id && Some(e.keys.tx) == txKey
  }

  ghost predicate Unconfirmed(log: seq<H.Event>, id: nat, s: Session) {
    s.pending.Some? ==> forall j :: 0 <= j < |log| ==> !Confirms(log[j], id, s.txKey)
  }

  ghost predicate ConfirmInv(t: Traffic) {
    && (forall id :: id in t.w.sessions ==> Unconfirmed(t.w.log, id, t.w.sessions[id]))
    && (forall i, j :: 0 <= i < j < |t.w.log| && t.w.log[j].DidConfirm? ==>
          !Confirms(t.w.log[i], t.w.log[j].session, Some(t.w.log[j].keys.tx)))
  }

  /** A session that has just encapsulated holds a key no event is about yet. */
  lemma NewKeyUnconfirmed(ev: Valuation, t: Traffic, m: H.Move, j: nat)
    requires Typed(m.call) && InstallsInv(Step(ev, t, m)) && LoggedInv(t) && j < |t.w.log|
    requires Installs(m.session, H.At(t.w, m.session), m.call, Apply(ev, H.At(t.w, m.session), m.call)) != []
    ensures !Confirms(t.w.log[j], m.session, Apply(ev, H.At(t.w, m.session), m.call).state.txKey)
  {
    CallKeys(ev, m.session, H.At(t.w, m.session), m.call);
    assert EventInstalled(t.installs, t.w.log[j]);
    var a :| 0 <= a < |t.installs| && Logged(t.installs[a], t.w.log[j]);
    var t' := Step(ev, t, m);
    if Confirms(t.w.log[j], m.session, Apply(ev, H.At(t.w, m.session), m.call).state.txKey) {
      InstallIsUnique(t', a, |t.installs|);
    }
  }

  lemma PendingUnconfirmed(ev: Valuation, t: Traffic, m: H.Move)
    requires Typed(m.call) && InstallsInv(Step(ev, t, m)) && LoggedInv(t) && ConfirmInv(t)
    ensures Unconfirmed(t.w.log, m.session, Apply(ev, H.At(t.w, m.session), m.call).state)
  {
    var (c, s) := (m.call, H.At(t.w, m.session));
    var o := Apply(ev, s, c);
    if o.state.pending.Some? {
      if c.CallEncapsulateAuth? && o.out.Ok? {
        H.EncapsulateComputes(ev, s, c);
        forall j | 0 <= j < |t.w.log| ensures !Confirms(t.w.log[j], m.session, o.state.txKey) {
          NewKeyUnconfirmed(ev, t, m, j);
        }
      } else {
        H.PendingOrigin(ev, s, c);
        assert m.session in t.w.sessions;
      }
    }
  }

  lemma StepKeepsConfirm(ev: Valuation, t: Traffic, m: H.Move)
    requires Typed(m.call) && InstallsInv(Step(ev, t, m)) && LoggedInv(t) && ConfirmInv(t)
    ensures ConfirmInv(Step(ev, t, m))
  {
    var (id, c, s) := (m.session, m.call, H.At(t.w, m.session));
    var more := H.Events(id, s, c, Apply(ev, s, c));
    PendingUnconfirmed(ev, t, m);
    H.SeedDiscipline(ev, s, id, c);
    if more != [] && more[0].DidConfirm? {
      ConfirmKeeps(ev, id, s, c, more[0]);
      assert id in t.w.sessions;
    }
    ConfirmSnoc(t, Step(ev, t, m), id, more);
  }

  lemma ConfirmSnoc(t: Traffic, t': Traffic, id: nat, more: seq<H.Event>)
    requires ConfirmInv(t) && |more| <= 1 && t'.w.log == t.w.log + more
    requires t'.w.sessions.Keys == t.w.sessions.Keys + {id}
    requires forall k :: k in t.w.sessions && k != id ==> t'.w.sessions[k] == t.w.sessions[k]
    requires Unconfirmed(t.w.log, id, t'.w.sessions[id])
    requires more != [] && more[0].DidConfirm? ==>
               && more[0].session == id && t'.w.sessions[id].pending.None? && id in t.w.sessions
               && t.w.sessions[id].pending.Some? && t.w.sessions[id].txKey == Some(more[0].keys.tx)
    ensures ConfirmInv(t')
  {
    forall k | k in t'.w.sessions ensures Unconfirmed(t'.w.log, k, t'.w.sessions[k]) {
      assert k != id ==> Unconfirmed(t.w.log, k, t.w.sessions[k]);
    }
    forall i, j | 0 <= i < j < |t'.w.log| && t'.w.log[j].DidConfirm?
      ensures !Confirms(t'.w.log[i], t'.w.log[j].session, Some(t'.w.log[j].keys.tx))
    {
      assert t'.w.log[i] == t.w.log[i];
      if j == |t.w.log| {
        assert Unconfirmed(t.w.log, id, t.w.sessions[id]);
      }
    }
  }

  // ---- Replay ----

  ghost predicate WindowOk(t: Traffic, id: nat) { Represents(H.At(t.w, id).window, Committed(t, id)) }

  ghost predicate WindowsInv(t: Traffic) { forall id: nat :: WindowOk(t, id) }

  /** What a keyed session accepted under its current installation, its window knows. */
  ghost predicate AcceptedKnown(t: Traffic, id: nat, j: nat)
    requires j < |t.packets|
  {
    t.packets[j].Got? && id in t.current && t.packets[j].install == t.current[id] && H.At(t.w, id).txKey.Some? ==>
      t.packets[j].sequence in Committed(t, id)
  }

  ghost predicate AcceptedInv(t: Traffic) {
    && (forall id: nat, j: nat :: j < |t.packets| ==> AcceptedKnown(t, id, j))
    && (forall j :: 0 <= j < |t.packets| ==> t.packets[j].install < |t.installs|)
  }

  /** No installation accepts one sequence twice. */
  ghost predicate OnceInv(packets: seq<Packet>) {
    forall i, j :: 0 <= i < j < |packets| && packets[i].Got? && packets[j].Got? ==>
      (packets[i].install == packets[j].install ==> packets[i].sequence != packets[j].sequence)
  }

  lemma StepKeepsWindows(ev: Valuation, t: Traffic, m: H.Move)
    requires Typed(m.call) && WindowsInv(t)
    ensures WindowsInv(Step(ev, t, m))
  {
    var (id, c, s) := (m.session, m.call, H.At(t.w, m.session));
    var t' := Step(ev, t, m);
    assert WindowOk(t, id);
    CallWindow(ev, id, s, c);
    EmptyRepresents();
    if Commits(c, Apply(ev, s, c)) {
      CommitWindow(ev, s, c, Committed(t, id));
    }
    forall k: nat ensures WindowOk(t', k) {
      assert WindowOk(t, k);
    }
  }

  /** A successful decryption is by a session that holds keys, under its current installation. */
  lemma DecryptHolds(ev: Valuation, t: Traffic, m: H.Move)
    requires Typed(m.call) && CurrentInv(t) && m.call.CallDecrypt? && Apply(ev, H.At(t.w, m.session), m.call).out.Ok?
    ensures var (id, s) := (m.session, H.At(t.w, m.session));
            && s.txKey.Some? && s.rxKey.Some? && id in t.current && t.current[id] < |t.installs|
            && t.installs[t.current[id]].session == id && s.rxKey == Some(t.installs[t.current[id]].keys.rx)
            && Packets(t, id, s, m.call, Apply(ev, s, m.call)) != []
  {
    assert Holds(t, m.session, H.At(t.w, m.session));
  }

  lemma OldAcceptedKnown(ev: Valuation, t: Traffic, m: H.Move, k: nat, j: nat)
    requires Typed(m.call) && CurrentInv(t) && AcceptedInv(t) && j < |t.packets|
    ensures AcceptedKnown(Step(ev, t, m), k, j)
  {
    var (id, c, s) := (m.session, m.call, H.At(t.w, m.session));
    assert AcceptedKnown(t, k, j);
    if k == id {
      CallKeys(ev, id, s, c);
      CallWindow(ev, id, s, c);
    }
  }

  lemma NewAcceptedKnown(ev: Valuation, t: Traffic, m: H.Move, k: nat)
    requires Typed(m.call) && CurrentInv(t)
    requires m.call.CallDecrypt? && Apply(ev, H.At(t.w, m.session), m.call).out.Ok?
    ensures |Step(ev, t, m).packets| == |t.packets| + 1 && AcceptedKnown(Step(ev, t, m), k, |t.packets|)
  {
    DecryptHolds(ev, t, m);
    if k != m.session && k in t.w.sessions {
      assert Holds(t, k, t.w.sessions[k]);
    }
  }

  lemma NewPackets(ev: Valuation, t: Traffic, m: H.Move)
    requires Typed(m.call) && CurrentInv(t)
    ensures var (id, s) := (m.session, H.At(t.w, m.session));
            var more := Packets(t, id, s, m.call, Apply(ev, s, m.call));
            && |more| <= 1 && (more != [] ==> more[0].install < |t.installs| && more[0].install == t.current[id])
            && (more != [] && more[0].Got? ==>
                  m.call.CallDecrypt? && Apply(ev, s, m.call).out.Ok? && more[0].sequence == SequenceOf(m.call.nonce))
  {
  }

  lemma PacketsStayIndexed(ev: Valuation, t: Traffic, m: H.Move, j: nat)
    requires Typed(m.call) && CurrentInv(t) && AcceptedInv(t) && j < |Step(ev, t, m).packets|
    ensures Step(ev, t, m).packets[j].install < |Step(ev, t, m).installs|
  {
    NewPackets(ev, t, m);
  }

  lemma StepKeepsAccepted(ev: Valuation, t: Traffic, m: H.Move)
    requires Typed(m.call) && CurrentInv(t) && AcceptedInv(t)
    ensures AcceptedInv(Step(ev, t, m))
  {
    var t' := Step(ev, t, m);
    NewPackets(ev, t, m);
    forall j | 0 <= j < |t'.packets| ensures t'.packets[j].install < |t'.installs| {
      PacketsStayIndexed(ev, t, m, j);
    }
    forall k: nat, j: nat | j < |t'.packets| ensures AcceptedKnown(t', k, j) {
      if j < |t.packets| {
        OldAcceptedKnown(ev, t, m, k, j);
      } else if t'.packets[j].Got? {
        NewAcceptedKnown(ev, t, m, k);
      }
    }
  }

  lemma AcceptedIsNew(ev: Valuation, t: Traffic, m: H.Move, i: nat)
    requires Typed(m.call) && CurrentInv(t) && AcceptedInv(t) && WindowOk(t, m.session) && i < |t.packets|
    requires m.call.CallDecrypt? && Apply(ev, H.At(t.w, m.session), m.call).out.Ok? && m.session in t.current
    requires t.packets[i].Got? && t.packets[i].install == t.current[m.session]
    ensures t.packets[i].sequence != SequenceOf(m.call.nonce)
  {
    DecryptHolds(ev, t, m);
    CommitWindow(ev, H.At(t.w, m.session), m.call, Committed(t, m.session));
    assert AcceptedKnown(t, m.session, i);
  }

  lemma OnceSnoc(packets: seq<Packet>, p: Packet)
    requires OnceInv(packets)
    requires p.Got? ==> forall i :: 0 <= i < |packets| && packets[i].Got? && packets[i].install == p.install ==>
                          packets[i].sequence != p.sequence
    ensures OnceInv(packets + [p])
  {
  }

  lemma StepKeepsOnce(ev: Valuation, t: Traffic, m: H.Move)
    requires Typed(m.call) && CurrentInv(t) && AcceptedInv(t) && WindowOk(t, m.session) && OnceInv(t.packets)
    ensures OnceInv(Step(ev, t, m).packets)
  {
    var s := H.At(t.w, m.session);
    var more := Packets(t, m.session, s, m.call, Apply(ev, s, m.call));
    NewPackets(ev, t, m);
    if more != [] {
      forall i | more[0].Got? && 0 <= i < |t.packets| && t.packets[i].Got? && t.packets[i].install == more[0].install
        ensures t.packets[i].sequence != more[0].sequence
      {
        AcceptedIsNew(ev, t, m, i);
      }
      assert more == [more[0]];
      OnceSnoc(t.packets, more[0]);
    } else {
      assert t.packets + more == t.packets;
    }
  }

  // ---- Transmit nonces ----

  predicate Transmits(p: Packet) { p.Sent? || p.Handed? }

  predicate Issues(c: Call, o: Outcome) { (c.CallEncrypt? || c.CallNextNonce?) && o.out.Ok? }

  /** A call moves the transmit counter on by what it issues, or changes the keys. */
  ghost predicate CounterKept(ev: Valuation, id: nat, s: Session, c: Call)
    requires Typed(c)
  {
    var o := Apply(ev, s, c);
    || Installs(id, s, c, o) != [] || o.state.txKey.None?
    || o.state.txCounter == s.txCounter + if Issues(c, o) then 1 else 0
  }

  lemma HandshakeCounter(ev: Valuation, id: nat, s: Session, c: Call)
    requires Typed(c) && (Encapsulates(c) || Finalizes(c) || c.CallConfirmPeer?)
    ensures CounterKept(ev, id, s, c)
  {
    if Apply(ev, s, c).out.Err? {
      FailingCallIsCleanOrFatal(ev, s, c);
    } else if c.CallFinalizeAuth? {
      H.FinalizeComputes(ev, s, c);
    }
  }

  lemma CallCounter(ev: Valuation, id: nat, s: Session, c: Call)
    requires Typed(c)
    ensures CounterKept(ev, id, s, c)
  {
    if Encapsulates(c) || Finalizes(c) || c.CallConfirmPeer? {
      HandshakeCounter(ev, id, s, c);
    }
  }

  /** What a keyed session has sent under its current installation is below its counter. */
  ghost predicate BelowCounter(t: Traffic, id: nat, j: nat)
    requires j < |t.packets|
  {
    Transmits(t.packets[j]) && id in t.current && t.packets[j].install == t.current[id] && H.At(t.w, id).txKey.Some? ==>
      t.packets[j].sequence < H.At(t.w, id).txCounter
  }

  /** No installation transmits under one sequence twice. */
  ghost predicate NonceOnce(packets: seq<Packet>) {
    forall i, j :: 0 <= i < j < |packets| && Transmits(packets[i]) && Transmits(packets[j]) ==>
      (packets[i].install == packets[j].install ==> packets[i].sequence != packets[j].sequence)
  }

  ghost predicate NonceInv(t: Traffic) {
    (forall id: nat, j: nat :: j < |t.packets| ==> BelowCounter(t, id, j)) && NonceOnce(t.packets)
  }

  lemma TransmitHolds(ev: Valuation, t: Traffic, m: H.Move)
    requires Typed(m.call) && CurrentInv(t)
    requires var more := Packets(t, m.session, H.At(t.w, m.session), m.call, Apply(ev, H.At(t.w, m.session), m.call));
             more != [] && Transmits(more[0])
    ensures var (id, s) := (m.session, H.At(t.w, m.session));
            var more := Packets(t, id, s, m.call, Apply(ev, s, m.call));
            && s.txKey.Some? && id in t.current && t.current[id] < |t.installs|
               && t.installs[t.current[id]].session == id
            && Issues(m.call, Apply(ev, s, m.call)) && more[0].sequence == s.txCounter
               && more[0].install == t.current[id]
            && Installs(id, s, m.call, Apply(ev, s, m.call)) == []
            && Apply(ev, s, m.call).state.txCounter == s.txCounter + 1
  {
    assert Holds(t, m.session, H.At(t.w, m.session));
    NonceRoundTrip(H.At(t.w, m.session).txCounter);
  }

  lemma OldBelowCounter(ev: Valuation, t: Traffic, m: H.Move, k: nat, j: nat)
    requires Typed(m.call) && CurrentInv(t) && AcceptedInv(t) && NonceInv(t) && j < |t.packets|
    ensures BelowCounter(Step(ev, t, m), k, j)
  {
    var (id, c, s) := (m.session, m.call, H.At(t.w, m.session));
    assert BelowCounter(t, k, j);
    if k == id {
      CallKeys(ev, id, s, c);
      CallCounter(ev, id, s, c);
    }
  }

  lemma NewBelowCounter(ev: Valuation, t: Traffic, m: H.Move, k: nat)
    requires Typed(m.call) && CurrentInv(t)
    requires |Step(ev, t, m).packets| == |t.packets| + 1
    ensures BelowCounter(Step(ev, t, m), k, |t.packets|)
  {
    if Transmits(Step(ev, t, m).packets[|t.packets|]) {
      TransmitHolds(ev, t, m);
      if k != m.session && k in t.w.sessions {
        assert Holds(t, k, t.w.sessions[k]);
      }
    }
  }

  lemma NonceSnoc(packets: seq<Packet>, p: Packet)
    requires NonceOnce(packets)
    requires Transmits(p) ==>
               forall i :: 0 <= i < |packets| && Transmits(packets[i]) && packets[i].install == p.install ==>
                 packets[i].sequence != p.sequence
    ensures NonceOnce(packets + [p])
  {
  }

  lemma StepKeepsNonceOnce(ev: Valuation, t: Traffic, m: H.Move)
    requires Typed(m.call) && CurrentInv(t) && NonceInv(t)
    ensures NonceOnce(Step(ev, t, m).packets)
  {
    var s := H.At(t.w, m.session);
    var more := Packets(t, m.session, s, m.call, Apply(ev, s, m.call));
    NewPackets(ev, t, m);
    if more != [] {
      if Transmits(more[0]) {
        TransmitHolds(ev, t, m);
        forall i | 0 <= i < |t.packets| && Transmits(t.packets[i]) && t.packets[i].install == more[0].install
          ensures t.packets[i].sequence != more[0].sequence
        {
          assert BelowCounter(t, m.session, i);
        }
      }
      assert more == [more[0]];
      NonceSnoc(t.packets, more[0]);
    } else {
      assert t.packets + more == t.packets;
    }
  }

  lemma StepKeepsNonces(ev: Valuation, t: Traffic, m: H.Move)
    requires Typed(m.call) && CurrentInv(t) && AcceptedInv(t) && NonceInv(t)
    ensures NonceInv(Step(ev, t, m))
  {
    var t' := Step(ev, t, m);
    NewPackets(ev, t, m);
    StepKeepsNonceOnce(ev, t, m);
    forall k: nat, j: nat | j < |t'.packets| ensures BelowCounter(t', k, j) {
      if j < |t.packets| {
        OldBelowCounter(ev, t, m, k, j);
      } else {
        NewBelowCounter(ev, t, m, k);
      }
    }
  }

  // ---- Authenticity ----

  /** The session finalized with, or was confirmed by, a peer it identified as honest, under this installation. */
  ghost predicate TrustedBy(e: H.Event, honest: iset<SigningKey>, x: Install) {
    && Logged(x, e)
    && ((e.DidFinalize? && H.HonestVk(honest, e.view.encap)) || (e.DidConfirm? && H.HonestVk(honest, e.peer)))
  }

  ghost predicate Trusted(log: seq<H.Event>, honest: iset<SigningKey>, x: Install) {
    exists j :: 0 <= j < |log| && TrustedBy(log[j], honest, x)
  }

  /** The two installations belong to a matched encapsulation and finalize. */
  ghost predicate PeersAt(log: seq<H.Event>, x: Install, y: Install, e: int, f: int) {
    && 0 <= e < |log| && 0 <= f < |log| && H.Matches(log[e], log[f])
    && ((Logged(x, log[e]) && Logged(y, log[f])) || (Logged(x, log[f]) && Logged(y, log[e])))
  }

  ghost predicate Peers(log: seq<H.Event>, x: Install, y: Install) { exists e, f :: PeersAt(log, x, y, e, f) }

  /** Some session's send made this tag. */
  ghost predicate Produced(t: Traffic, tag: seq<Byte>) {
    exists i :: 0 <= i < |t.packets| && ProducedAt(t, i, tag)
  }

  ghost predicate ProducedAt(t: Traffic, i: nat, tag: seq<Byte>)
    requires i < |t.packets|
  {
    t.packets[i].Sent? && tag == t.packets[i].tag
  }

  /** A sent packet is its message sealed under the transmit key of its installation and the nonce of its sequence. */
  ghost predicate WiredAt(ev: Valuation, t: Traffic, i: nat)
    requires i < |t.packets|
  {
    var p := t.packets[i];
    p.Sent? ==>
      && p.install < |t.installs|
      && Sealed(ev, t.installs[p.install].keys.tx, p.sequence,
                Wire(p.message, p.ciphertext, NonceOf(p.sequence), p.tag))
  }

  ghost predicate WiredInv(ev: Valuation, t: Traffic) { forall i :: 0 <= i < |t.packets| ==> WiredAt(ev, t, i) }

  lemma EncryptSeals(ev: Valuation, s: Session, c: Call)
    requires Typed(c) && c.CallEncrypt? && Apply(ev, s, c).out.Ok?
    ensures s.txKey.Some? && Apply(ev, s, c).out.value.Packet?
    ensures var p := Apply(ev, s, c).out.value;
            SequenceOf(p.nonce) == s.txCounter
            && Sealed(ev, s.txKey.value, s.txCounter, Wire(Message(c.aad, c.plaintext), p.ciphertext, p.nonce, p.tag))
  {
    NonceRoundTrip(s.txCounter);
  }

  lemma NewWired(ev: Valuation, t: Traffic, m: H.Move)
    requires Typed(m.call) && CurrentInv(t) && |Step(ev, t, m).packets| == |t.packets| + 1
    ensures WiredAt(ev, Step(ev, t, m), |t.packets|)
  {
    var (s, c) := (H.At(t.w, m.session), m.call);
    if c.CallEncrypt? {
      EncryptSeals(ev, s, c);
      assert Holds(t, m.session, s);
    }
  }

  lemma WiredStays(ev: Valuation, t: Traffic, t': Traffic, i: nat)
    requires i < |t.packets| && WiredAt(ev, t, i) && t.packets <= t'.packets && t.installs <= t'.installs
    ensures WiredAt(ev, t', i)
  {
    assert t'.packets[i] == t.packets[i];
  }

  lemma TrafficGrows(ev: Valuation, t: Traffic, m: H.Move)
    requires Typed(m.call) && CurrentInv(t)
    ensures var t' := Step(ev, t, m);
            t.packets <= t'.packets && t.installs <= t'.installs && |t'.packets| <= |t.packets| + 1
  {
    NewPackets(ev, t, m);
  }

  lemma StepKeepsWired(ev: Valuation, t: Traffic, m: H.Move)
    requires Typed(m.call) && CurrentInv(t) && WiredInv(ev, t)
    ensures WiredInv(ev, Step(ev, t, m))
  {
    var t' := Step(ev, t, m);
    TrafficGrows(ev, t, m);
    if |t'.packets| > |t.packets| {
      NewWired(ev, t, m);
    }
    forall i | 0 <= i < |t'.packets| ensures WiredAt(ev, t', i) {
      if i < |t.packets| {
        WiredStays(ev, t, t', i);
      }
    }
  }

  /** No tag under a trusted session's receive key but those that were sent. */
  ghost predicate UnforgedTag(t: Traffic, honest: iset<SigningKey>, m: H.Move) {
    var (id, s) := (m.session, H.At(t.w, m.session));
    m.call.CallDecrypt? && id in t.current && t.current[id] < |t.installs| && s.rxKey.Some?
    && Trusted(t.w.log, honest, t.installs[t.current[id]])
    && m.call.tag == Tag(s.rxKey.value, m.call.nonce, m.call.aad, m.call.ciphertext) ==>
      Produced(t, m.call.tag)
  }

  ghost predicate Admissible(t: Traffic, honest: iset<SigningKey>, m: H.Move) {
    H.Admissible(t.w, honest, m) && Fresh(t, m) && UnforgedTag(t, honest, m)
  }

  /**
   A packet accepted by a session that then trusted its peer was sent before, by that peer's session, as it was
   accepted.
   */
  ghost predicate FromPeer(t: Traffic, honest: iset<SigningKey>, j: nat)
    requires j < |t.packets|
  {
    var p := t.packets[j];
    p.Got? ==>
      && p.install < |t.installs| && p.known <= |t.w.log|
      && (Trusted(t.w.log[..p.known], honest, t.installs[p.install]) ==> exists i :: SentByPeer(t, j, i))
  }

  ghost predicate SentByPeer(t: Traffic, j: nat, i: int)
    requires j < |t.packets| && t.packets[j].Got? && t.packets[j].install < |t.installs|
  {
    && 0 <= i < j && t.packets[i].Sent? && t.packets[i].install < |t.installs|
    && t.packets[i].sequence == t.packets[j].sequence && t.packets[i].message == t.packets[j].message
    && Peers(t.w.log, t.installs[t.packets[j].install], t.installs[t.packets[i].install])
  }

  ghost predicate AuthenticInv(t: Traffic, honest: iset<SigningKey>) {
    forall j :: 0 <= j < |t.packets| ==> FromPeer(t, honest, j)
  }

  /** Trust rests on a matched pair of events, one of which is the trusting session's own. */
  lemma TrustedHasPeer(log: seq<H.Event>, honest: iset<SigningKey>, x: Install) returns (e: int, f: int)
    requires H.AllAgreed(log, honest) && Trusted(log, honest, x)
    ensures 0 <= e < |log| && 0 <= f < |log| && H.Matches(log[e], log[f])
    ensures Logged(x, log[e]) || Logged(x, log[f])
  {
    var j :| 0 <= j < |log| && TrustedBy(log[j], honest, x);
    assert H.Agreed(log[..j], honest, log[j]);
    if log[j].DidFinalize? {
      e :| 0 <= e < j && H.Matches(log[..j][e], log[j]);
      f := j;
    } else {
      e, f :| H.ConfirmedBy(log[..j], log[j], e, f);
    }
  }

  /** The installation of the trusting session's peer. */
  lemma PeerInstall(t: Traffic, honest: iset<SigningKey>, x: Install) returns (a: nat)
    requires H.AllAgreed(t.w.log, honest) && LoggedInv(t) && Trusted(t.w.log, honest, x)
    ensures a < |t.installs| && Peers(t.w.log, x, t.installs[a]) && t.installs[a].keys.tx == x.keys.rx
  {
    var e, f := TrustedHasPeer(t.w.log, honest, x);
    var peer := if Logged(x, t.w.log[e]) then f else e;
    assert EventInstalled(t.installs, t.w.log[peer]);
    a :| 0 <= a < |t.installs| && Logged(t.installs[a], t.w.log[peer]);
    assert PeersAt(t.w.log, x, t.installs[a], e, f);
  }

  lemma DecryptOpens(ev: Valuation, s: Session, c: Call)
    requires Typed(c) && c.CallDecrypt? && Apply(ev, s, c).out.Ok?
    ensures s.rxKey.Some? && c.tag == Tag(s.rxKey.value, c.nonce, c.aad, c.ciphertext)
    ensures Apply(ev, s, c).out.value == Plain(ApplyKeystream(ev, EncKey(s.rxKey.value), c.nonce, c.ciphertext))
  {
  }

  /**
   A tag that verifies for a packet was made for that packet: its nonce, its aad and, under the same key, its
   plaintext.
   */
  lemma TagNamesPacket(ev: Valuation, rx: Key, nonce: Nonce, aad: Slice, ciphertext: Slice, key: Key, sequence: u64,
                       message: Message)
    requires Tag(rx, nonce, aad, ciphertext) == WireTag(ev, key, sequence, message)
    ensures MacKey(rx) == MacKey(key) && sequence == SequenceOf(nonce) && aad == message.aad
    ensures key == rx ==> ApplyKeystream(ev, EncKey(rx), nonce, ciphertext) == message.plaintext
  {
    TagInjective(rx, nonce, aad, ciphertext, key, NonceOf(sequence), message.aad,
                 WireCiphertext(ev, key, sequence, message));
    NonceRoundTrip(sequence);
    KeystreamInvolution(ev, EncKey(key), nonce, message.plaintext);
  }

  lemma AcceptIsAuthentic(ev: Valuation, t: Traffic, honest: iset<SigningKey>, c: Call, x: Install) returns (i: nat)
    requires H.AllAgreed(t.w.log, honest) && LoggedInv(t) && InstallsInv(t) && WiredInv(ev, t)
    requires Trusted(t.w.log, honest, x)
    requires c.CallDecrypt? && c.tag == Tag(x.keys.rx, c.nonce, c.aad, c.ciphertext) && Produced(t, c.tag)
    ensures i < |t.packets| && t.packets[i].Sent? && t.packets[i].install < |t.installs|
    ensures t.packets[i].sequence == SequenceOf(c.nonce)
    ensures t.packets[i].message == Message(c.aad, ApplyKeystream(ev, EncKey(x.keys.rx), c.nonce, c.ciphertext))
    ensures Peers(t.w.log, x, t.installs[t.packets[i].install])
  {
    var a := PeerInstall(t, honest, x);
    i :| 0 <= i < |t.packets| && ProducedAt(t, i, c.tag);
    assert WiredAt(ev, t, i);
    var (sent, key) := (t.packets[i], t.installs[t.packets[i].install].keys.tx);
    TagNamesPacket(ev, x.keys.rx, c.nonce, c.aad, c.ciphertext, key, sent.sequence, sent.message);
    InstallIsUnique(t, a, sent.install);
    TagNamesPacket(ev, x.keys.rx, c.nonce, c.aad, c.ciphertext, key, sent.sequence, sent.message);
  }

  // ---- Every run ----

  lemma PeersGrow(log: seq<H.Event>, more: seq<H.Event>, x: Install, y: Install)
    requires Peers(log, x, y)
    ensures Peers(log + more, x, y)
  {
    var e, f :| PeersAt(log, x, y, e, f);
    assert PeersAt(log + more, x, y, e, f);
  }

  lemma FromPeerStays(ev: Valuation, t: Traffic, honest: iset<SigningKey>, m: H.Move, j: nat)
    requires Typed(m.call) && j < |t.packets| && FromPeer(t, honest, j)
    ensures FromPeer(Step(ev, t, m), honest, j)
  {
    var (t', p, more) := (Step(ev, t, m), t.packets[j], Step(ev, t, m).w.log[|t.w.log|..]);
    assert t'.w.log == t.w.log + more;
    if p.Got? {
      assert t'.w.log[..p.known] == t.w.log[..p.known];
      if Trusted(t.w.log[..p.known], honest, t.installs[p.install]) {
        var i :| SentByPeer(t, j, i);
        PeersGrow(t.w.log, more, t.installs[p.install], t.installs[t.packets[i].install]);
        assert SentByPeer(t', j, i);
      }
    }
  }

  /** An earlier packet of the peer's session carries what `p` does. */
  ghost predicate SentBefore(t: Traffic, p: Packet, i: int)
    requires p.Got? && p.install < |t.installs|
  {
    && 0 <= i < |t.packets| && t.packets[i].Sent? && t.packets[i].install < |t.installs|
    && t.packets[i].sequence == p.sequence && t.packets[i].message == p.message
    && Peers(t.w.log, t.installs[p.install], t.installs[t.packets[i].install])
  }

  lemma FromPeerSnoc(t: Traffic, t': Traffic, honest: iset<SigningKey>, p: Packet)
    requires p.Got? && p.install < |t.installs| && p.known == |t.w.log|
    requires t'.packets == t.packets + [p] && t.installs <= t'.installs && t.w.log <= t'.w.log
    requires Trusted(t.w.log, honest, t.installs[p.install]) ==> exists i :: SentBefore(t, p, i)
    ensures FromPeer(t', honest, |t.packets|)
  {
    assert t'.w.log[..p.known] == t.w.log;
    if Trusted(t.w.log, honest, t.installs[p.install]) {
      var i :| SentBefore(t, p, i);
      PeersGrow(t.w.log, t'.w.log[|t.w.log|..], t.installs[p.install], t.installs[t.packets[i].install]);
      assert t'.w.log == t.w.log + t'.w.log[|t.w.log|..];
      assert SentByPeer(t', |t.packets|, i);
    }
  }

  lemma GotPacket(ev: Valuation, t: Traffic, m: H.Move) returns (p: Packet)
    requires Typed(m.call) && CurrentInv(t) && m.call.CallDecrypt? && Apply(ev, H.At(t.w, m.session), m.call).out.Ok?
    ensures m.session in t.current && t.current[m.session] < |t.installs|
    ensures var (c, x) := (m.call, t.installs[t.current[m.session]]);
            && H.At(t.w, m.session).rxKey == Some(x.keys.rx) && c.tag == Tag(x.keys.rx, c.nonce, c.aad, c.ciphertext)
            && p == Got(t.current[m.session], SequenceOf(c.nonce),
                        Message(c.aad, ApplyKeystream(ev, EncKey(x.keys.rx), c.nonce, c.ciphertext)), |t.w.log|)
    ensures Step(ev, t, m).packets == t.packets + [p]
  {
    DecryptHolds(ev, t, m);
    DecryptOpens(ev, H.At(t.w, m.session), m.call);
    p := Packets(t, m.session, H.At(t.w, m.session), m.call, Apply(ev, H.At(t.w, m.session), m.call))[0];
  }

  lemma NewFromPeer(ev: Valuation, t: Traffic, honest: iset<SigningKey>, m: H.Move)
    requires H.AllAgreed(t.w.log, honest) && LoggedInv(t) && InstallsInv(t) && CurrentInv(t) && WiredInv(ev, t)
    requires Typed(m.call) && UnforgedTag(t, honest, m)
    requires m.call.CallDecrypt? && Apply(ev, H.At(t.w, m.session), m.call).out.Ok?
    ensures |Step(ev, t, m).packets| == |t.packets| + 1 && FromPeer(Step(ev, t, m), honest, |t.packets|)
  {
    var p := GotPacket(ev, t, m);
    var x := t.installs[p.install];
    if Trusted(t.w.log, honest, x) {
      var i := AcceptIsAuthentic(ev, t, honest, m.call, x);
      assert SentBefore(t, p, i);
    }
    FromPeerSnoc(t, Step(ev, t, m), honest, p);
  }

  lemma AuthenticSnoc(t': Traffic, honest: iset<SigningKey>, before: nat)
    requires before <= |t'.packets| <= before + 1
    requires forall j :: 0 <= j < before ==> FromPeer(t', honest, j)
    requires |t'.packets| > before ==> FromPeer(t', honest, before)
    ensures AuthenticInv(t', honest)
  {
  }

  lemma StepKeepsAuthentic(ev: Valuation, t: Traffic, honest: iset<SigningKey>, m: H.Move)
    requires H.AllAgreed(t.w.log, honest) && LoggedInv(t) && InstallsInv(t) && CurrentInv(t) && AuthenticInv(t, honest)
    requires WiredInv(ev, t) && Typed(m.call) && UnforgedTag(t, honest, m)
    ensures AuthenticInv(Step(ev, t, m), honest)
  {
    var t' := Step(ev, t, m);
    NewPackets(ev, t, m);
    forall j | 0 <= j < |t.packets| ensures FromPeer(t', honest, j) {
      FromPeerStays(ev, t, honest, m, j);
    }
    if m.call.CallDecrypt? && Apply(ev, H.At(t.w, m.session), m.call).out.Ok? {
      NewFromPeer(ev, t, honest, m);
    }
    AuthenticSnoc(t', honest, |t.packets|);
  }

  ghost predicate Inv(ev: Valuation, t: Traffic, honest: iset<SigningKey>) {
    && H.WorldInv(t.w, honest) && H.SeedInv(t.w)
    && InstallsInv(t) && CurrentInv(t) && LoggedInv(t)
    && ConfirmInv(t) && WindowsInv(t) && AcceptedInv(t) && NonceInv(t)
    && OnceInv(t.packets) && WiredInv(ev, t) && AuthenticInv(t, honest)
  }

  lemma StepKeepsInv(ev: Valuation, t: Traffic, honest: iset<SigningKey>, m: H.Move)
    requires Inv(ev, t, honest) && Admissible(t, honest, m)
    ensures Inv(ev, Step(ev, t, m), honest)
  {
    H.StepKeepsInv(ev, t.w, honest, m);
    H.StepKeepsSeedInv(ev, t.w, m);
    StepKeepsInstalls(ev, t, m);
    StepKeepsCurrent(ev, t, m);
    StepKeepsLogged(ev, t, m);
    StepKeepsConfirm(ev, t, m);
    StepKeepsNonces(ev, t, m);
    StepKeepsWired(ev, t, m);
    StepKeepsWindows(ev, t, m);
    StepKeepsAccepted(ev, t, m);
    assert WindowOk(t, m.session);
    StepKeepsOnce(ev, t, m);
    StepKeepsAuthentic(ev, t, honest, m);
  }

  function Run(ev: Valuation, t: Traffic, moves: seq<H.Move>): Traffic
    requires forall i :: 0 <= i < |moves| ==> Typed(moves[i].call)
    decreases |moves|
  {
    if moves == [] then t else Run(ev, Step(ev, t, moves[0]), moves[1..])
  }

  ghost predicate AdmissibleRun(ev: Valuation, t: Traffic, honest: iset<SigningKey>, moves: seq<H.Move>)
    decreases |moves|
  {
    moves != [] ==> Admissible(t, honest, moves[0]) && AdmissibleRun(ev, Step(ev, t, moves[0]), honest, moves[1..])
  }

  /** What every admissible step keeps, every admissible run keeps. */
  lemma {:induction false} RunInduction(ev: Valuation, t: Traffic, honest: iset<SigningKey>, moves: seq<H.Move>,
                                        inv: Traffic -> bool)
    requires inv(t) && AdmissibleRun(ev, t, honest, moves)
    requires forall i :: 0 <= i < |moves| ==> Typed(moves[i].call)
    requires forall x, m :: inv(x) && Admissible(x, honest, m) ==> inv(Step(ev, x, m))
    ensures inv(Run(ev, t, moves))
    decreases |moves|
  {
    if moves != [] {
      RunInduction(ev, Step(ev, t, moves[0]), honest, moves[1..], inv);
    }
  }

  lemma StartInv(ev: Valuation, honest: iset<SigningKey>)
    ensures Inv(ev, Start, honest)
  {
    EmptyRepresents();
  }

  lemma RunKeepsInv(ev: Valuation, honest: iset<SigningKey>, moves: seq<H.Move>)
    requires AdmissibleRun(ev, Start, honest, moves) && forall i :: 0 <= i < |moves| ==> Typed(moves[i].call)
    ensures Inv(ev, Run(ev, Start, moves), honest)
  {
    StartInv(ev, honest);
    var inv := (x: Traffic) => Inv(ev, x, honest);
    forall x, m | inv(x) && Admissible(x, honest, m) ensures inv(Step(ev, x, m)) {
      StepKeepsInv(ev, x, honest, m);
    }
    RunInduction(ev, Start, honest, moves, inv);
  }

  /**
   On every run: what a session accepts after finalizing with or being confirmed by an honest peer was
   sent before, with that sequence, aad and plaintext, by the session of the event its own log entry
   matches; and no installation accepts a sequence twice.
   */
  lemma AcceptedTrafficIsAuthentic(ev: Valuation, honest: iset<SigningKey>, moves: seq<H.Move>)
    requires forall i :: 0 <= i < |moves| ==> Typed(moves[i].call)
    requires AdmissibleRun(ev, Start, honest, moves)
    ensures var t := Run(ev, Start, moves);
            (forall j :: 0 <= j < |t.packets| ==> FromPeer(t, honest, j)) && OnceInv(t.packets)
  {
    RunKeepsInv(ev, honest, moves);
  }

  /** The two transmissions, if they share a key, differ in sequence and nonce. */
  ghost predicate NoncesApart(t: Traffic, i: nat, j: nat)
    requires i < |t.packets| && j < |t.packets|
  {
    var (p, q) := (t.packets[i], t.packets[j]);
    && p.install < |t.installs| && q.install < |t.installs|
    && (SharesKey(t.installs[p.install].keys.tx, t.installs[q.install].keys.tx) ==>
          p.sequence != q.sequence && NonceOf(p.sequence) != NonceOf(q.sequence))
  }

  lemma NoncesApartAt(t: Traffic, i: nat, j: nat)
    requires InstallsInv(t) && AcceptedInv(t) && NonceOnce(t.packets)
    requires i < j < |t.packets| && Transmits(t.packets[i]) && Transmits(t.packets[j])
    ensures NoncesApart(t, i, j)
  {
    var (p, q) := (t.packets[i], t.packets[j]);
    if SharesKey(t.installs[p.install].keys.tx, t.installs[q.install].keys.tx) {
      InstallIsUnique(t, p.install, q.install);
      NonceRoundTrip(p.sequence);
      NonceRoundTrip(q.sequence);
    }
  }

  /** On every run, over all sessions: no nonce is used twice under one encryption key or one MAC key. */
  lemma NoNonceRepeatsUnderAKey(ev: Valuation, honest: iset<SigningKey>, moves: seq<H.Move>, i: nat, j: nat)
    requires forall k :: 0 <= k < |moves| ==> Typed(moves[k].call)
    requires AdmissibleRun(ev, Start, honest, moves)
    requires var t := Run(ev, Start, moves);
             i < j < |t.packets| && Transmits(t.packets[i]) && Transmits(t.packets[j])
    ensures NoncesApart(Run(ev, Start, moves), i, j)
  {
    RunKeepsInv(ev, honest, moves);
    NoncesApartAt(Run(ev, Start, moves), i, j);
  }

  /** The keystream byte that covers byte `a` of a sent packet. */
  function Pad(t: Traffic, i: nat, a: nat): Byte
    requires i < |t.packets| && t.packets[i].Sent? && t.packets[i].install < |t.installs|
  {
    KeystreamByte(EncKey(t.installs[t.packets[i].install].keys.tx), NonceOf(t.packets[i].sequence), a)
  }

  /** Byte `a` of a sent packet is its plaintext byte under its own pad. */
  ghost predicate Padded(ev: Valuation, t: Traffic, i: nat, a: nat)
    requires i < |t.packets| && t.packets[i].Sent?
  {
    var p := t.packets[i];
    && p.install < |t.installs| && |p.ciphertext| == |p.message.plaintext|
    && (a < |p.ciphertext| ==> p.ciphertext[a] == p.message.plaintext[a] ^ Val(ev, Pad(t, i, a)))
  }

  lemma PaddedAt(ev: Valuation, t: Traffic, i: nat, a: nat)
    requires i < |t.packets| && t.packets[i].Sent? && WiredAt(ev, t, i)
    ensures Padded(ev, t, i, a)
  {
  }

  lemma PadsApart(t: Traffic, i: nat, a: nat, j: nat, b: nat)
    requires InstallsInv(t) && AcceptedInv(t) && NonceOnce(t.packets)
    requires i <= j < |t.packets| && t.packets[i].Sent? && t.packets[j].Sent? && (i != j || a != b)
    ensures t.packets[i].install < |t.installs| && t.packets[j].install < |t.installs|
    ensures Pad(t, i, a) != Pad(t, j, b)
  {
    if i != j {
      NoncesApartAt(t, i, j);
    }
  }

  /** On every run every byte sent is covered by a keystream byte, and no two bytes, of any packets, by the same one. */
  lemma NoPadIsReused(ev: Valuation, honest: iset<SigningKey>, moves: seq<H.Move>, i: nat, a: nat, j: nat, b: nat)
    requires forall k :: 0 <= k < |moves| ==> Typed(moves[k].call)
    requires AdmissibleRun(ev, Start, honest, moves)
    requires var t := Run(ev, Start, moves);
             i <= j < |t.packets| && t.packets[i].Sent? && t.packets[j].Sent? && (i != j || a != b)
    ensures var t := Run(ev, Start, moves);
            Padded(ev, t, i, a) && Padded(ev, t, j, b) && Pad(t, i, a) != Pad(t, j, b)
  {
    RunKeepsInv(ev, honest, moves);
    var t := Run(ev, Start, moves);
    assert WiredAt(ev, t, i) && WiredAt(ev, t, j);
    PaddedAt(ev, t, i, a);
    PaddedAt(ev, t, j, b);
    PadsApart(t, i, a, j, b);
  }

  /** Encapsulations that match one finalize are of one session, under the same keys. */
  lemma OneEncapsulationPerFinalize(t: Traffic, e: int, e': int, f: int)
    requires InstallsInv(t) && LoggedInv(t)
    requires 0 <= e < |t.w.log| && 0 <= e' < |t.w.log| && 0 <= f < |t.w.log|
    requires H.Matches(t.w.log[e], t.w.log[f]) && H.Matches(t.w.log[e'], t.w.log[f])
    ensures t.w.log[e].session == t.w.log[e'].session && t.w.log[e].keys == t.w.log[e'].keys
  {
    assert EventInstalled(t.installs, t.w.log[e]) && EventInstalled(t.installs, t.w.log[e']);
    var a :| 0 <= a < |t.installs| && Logged(t.installs[a], t.w.log[e]);
    var b :| 0 <= b < |t.installs| && Logged(t.installs[b], t.w.log[e']);
    InstallIsUnique(t, a, b);
  }

  lemma OneConfirmationPerFinalize(t: Traffic, c: nat, c': nat, e: int, e': int, f: int)
    requires InstallsInv(t) && LoggedInv(t) && ConfirmInv(t) && c < |t.w.log| && c' < |t.w.log|
    requires H.ConfirmedBy(t.w.log, t.w.log[c], e, f) && H.ConfirmedBy(t.w.log, t.w.log[c'], e', f)
    ensures c == c'
  {
    OneEncapsulationPerFinalize(t, e, e', f);
    assert Confirms(t.w.log[c], t.w.log[c'].session, Some(t.w.log[c'].keys.tx));
    assert Confirms(t.w.log[c'], t.w.log[c].session, Some(t.w.log[c].keys.tx));
  }

  /** Agreement of confirmations is injective too: on every run no two of them rest on the same finalize. */
  lemma ConfirmationsAreInjective(ev: Valuation, honest: iset<SigningKey>, moves: seq<H.Move>,
                                  c: nat, c': nat, e: int, e': int, f: int)
    requires forall k :: 0 <= k < |moves| ==> Typed(moves[k].call)
    requires AdmissibleRun(ev, Start, honest, moves)
    requires var log := Run(ev, Start, moves).w.log;
             && c < |log| && c' < |log|
             && H.ConfirmedBy(log, log[c], e, f) && H.ConfirmedBy(log, log[c'], e', f)
    ensures c == c'
  {
    RunKeepsInv(ev, honest, moves);
    OneConfirmationPerFinalize(Run(ev, Start, moves), c, c', e, e', f);
  }
}
