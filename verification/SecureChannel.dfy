/**
 The packet channel two sessions share after a completed handshake.

 Both sides send and receive. The network drops, duplicates, reorders, reflects and alters at will;
 the one thing it cannot do is make a tag under a channel MAC key that neither side made.
 */
module SecureChannel {
  import opened Words
  import opened SymbolicCrypto
  import opened Wrappers
  import opened HybridKdf
  import opened ReplayWindow
  import opened Aead
  import opened Sessions
  import opened HandshakeAgreement

  datatype Side = Left | Right

  function Other(side: Side): Side { if side == Left then Right else Left }

  datatype Message = Message(aad: Slice, plaintext: Slice)

  datatype Receipt = Receipt(sequence: u64, message: Message)

  /** A message and the packet `encrypt_packet` returned for it. */
  datatype Wire = Wire(message: Message, ciphertext: Slice, nonce: Nonce, tag: seq<Byte>)

  /** One end: its session, what it sent under each sequence number, what it accepted in order. */
  datatype End = End(session: Session, sent: map<u64, Wire>, got: seq<Receipt>)

  datatype Channel = Channel(left: End, right: End)

  function At(ch: Channel, side: Side): End { if side == Left then ch.left else ch.right }

  function Put(ch: Channel, side: Side, end: End): Channel {
    if side == Left then ch.(left := end) else ch.(right := end)
  }

  datatype Move =
    | Send(side: Side, message: Message, room: nat)
    | SkipNonce(side: Side)
    | Deliver(side: Side, aad: Slice, ciphertext: Slice, nonce: Nonce, tag: seq<Byte>, room: nat)

  /** An end after a send: what went on the wire is filed under the sequence number of its nonce. */
  function Sending(ev: Valuation, end: End, message: Message, room: nat): End {
    match EncryptPacket(ev, end.session, message.aad, message.plaintext, room)
    case Outcome(state, Ok(Packet(ciphertext, nonce, tag))) =>
      End(state, end.sent[SequenceOf(nonce) := Wire(message, ciphertext, nonce, tag)], end.got)
    case _ => end
  }

  function Step(ev: Valuation, ch: Channel, m: Move): Channel {
    var end := At(ch, m.side);
    match m
    case Send(side, message, room) =>
      Put(ch, side, Sending(ev, end, message, room))
    case SkipNonce(side) =>
      Put(ch, side, end.(session := NextNonce(end.session).state))
    case Deliver(side, aad, ciphertext, nonce, tag, room) =>
      var o := DecryptPacket(ev, end.session, aad, ciphertext, nonce, tag, room);
      Put(ch, side,
          if o.out.Ok? && o.out.value.Plain?
          then End(o.state, end.sent, end.got + [Receipt(SequenceOf(nonce), Message(aad, o.out.value.plaintext))])
          else end.(session := o.state))
  }

  /** What the packet for sequence `n` should be. */
  function WireCiphertext(ev: Valuation, key: Key, n: u64, message: Message): Slice {
    Seal(ev, key, NonceOf(n), message.plaintext)
  }

  function WireTag(ev: Valuation, key: Key, n: u64, message: Message): seq<Byte> {
    Tag(key, NonceOf(n), message.aad, WireCiphertext(ev, key, n, message))
  }

  ghost predicate ProducedBy(sent: map<u64, Wire>, tag: seq<Byte>) { exists n :: n in sent && tag == sent[n].tag }

  /** Some side put this tag on the wire. */
  ghost predicate Produced(ch: Channel, tag: seq<Byte>) {
    ProducedBy(ch.left.sent, tag) || ProducedBy(ch.right.sent, tag)
  }

  ghost predicate Admissible(ch: Channel, keys: Keys, m: Move) {
    m.Deliver? ==>
      forall k: Key, n, a, c :: MacKey(k) in {MacKey(keys.tx), MacKey(keys.rx)} && m.tag == Tag(k, n, a, c) ==>
        Produced(ch, m.tag)
  }

  // ---- The invariant of one direction ----

  /** Both ends hold the direction's key and the sender is past the handshake. */
  predicate Keyed(sender: Session, receiver: Session, key: Key) {
    CarriesTraffic(sender) && sender.txKey == Some(key) && receiver.rxKey == Some(key)
  }

  /** The packet is the message sealed under the key and nonce of its sequence number. */
  predicate Sealed(ev: Valuation, key: Key, n: u64, wire: Wire) {
    && |wire.message.plaintext| <= CHACHA20_MAX_BYTES && wire.nonce == NonceOf(n)
    && wire.ciphertext == WireCiphertext(ev, key, n, wire.message) && wire.tag == WireTag(ev, key, n, wire.message)
  }

  ghost predicate SentInv(ev: Valuation, sent: map<u64, Wire>, counter: u64, key: Key) {
    forall n :: n in sent ==> n < counter && Sealed(ev, key, n, sent[n])
  }

  /** The receipts are of sent messages, and of no sequence number twice. */
  ghost predicate Selection(sent: map<u64, Wire>, got: seq<Receipt>) {
    && (forall i :: 0 <= i < |got| ==> got[i].sequence in sent && sent[got[i].sequence].message == got[i].message)
    && (forall i, j :: 0 <= i < j < |got| ==> got[i].sequence != got[j].sequence)
  }

  /** What `sender` sent and `receiver` accepted under `key`. */
  ghost predicate DirectionInv(ev: Valuation, sender: End, receiver: End, key: Key) {
    && Keyed(sender.session, receiver.session, key)
    && SentInv(ev, sender.sent, sender.session.txCounter, key)
    && Selection(sender.sent, receiver.got)
    && Represents(receiver.session.window, Received(receiver.got))
  }

  ghost function Received(got: seq<Receipt>): set<u64> { set i | 0 <= i < |got| :: got[i].sequence }

  /** `keys` are the left end's; the right end holds them mirrored. */
  ghost predicate ChannelInv(ev: Valuation, ch: Channel, keys: Keys) {
    && MacKey(keys.tx) != MacKey(keys.rx)
    && DirectionInv(ev, ch.left, ch.right, keys.tx)
    && DirectionInv(ev, ch.right, ch.left, keys.rx)
  }

  function Open(ev: Valuation, left: Keys, right: Keys): Channel {
    Channel(End(Install(ev, left), map[], []), End(Install(ev, right), map[], []))
  }

  /** A finalize and the encapsulation it matches open a channel in its initial state. */
  lemma HandshakeOpensChannel(ev: Valuation, e: Event, f: Event)
    requires Genuine(e) && Genuine(f) && Matches(e, f)
    ensures ChannelInv(ev, Open(ev, f.keys, e.keys), f.keys)
  {
    DirectionsDiffer(f.prk, InnerOf(f.view));
  }

  // ---- Steps ----

  /** A send that succeeds returns the sealed message, under the next nonce. */
  lemma SendSeals(ev: Valuation, end: End, key: Key, message: Message, room: nat)
    requires end.session.txKey == Some(key)
    ensures var (n, end') := (end.session.txCounter, Sending(ev, end, message, room));
            end' == end || (&& n in end'.sent && Sealed(ev, key, n, end'.sent[n]) && end'.sent[n].message == message
                            && end' == End(end.session.(txCounter := n + 1), end.sent[n := end'.sent[n]], end.got)
                            && n + 1 <= U64_MAX)
  {
    NonceRoundTrip(end.session.txCounter);
  }

  lemma SentSnoc(ev: Valuation, sent: map<u64, Wire>, counter: u64, key: Key, wire: Wire, got: seq<Receipt>)
    requires SentInv(ev, sent, counter, key) && Sealed(ev, key, counter, wire) && counter < U64_MAX
    requires Selection(sent, got)
    ensures SentInv(ev, sent[counter := wire], counter + 1, key) && Selection(sent[counter := wire], got)
  {
    var sent' := sent[counter := wire];
    forall n | n in sent' ensures n < counter + 1 && Sealed(ev, key, n, sent'[n]) {
      assert n != counter ==> n in sent && n < counter && Sealed(ev, key, n, sent[n]);
    }
  }

  lemma SendKeepsDirection(ev: Valuation, sender: End, receiver: End, key: Key, message: Message, room: nat)
    requires DirectionInv(ev, sender, receiver, key)
    ensures DirectionInv(ev, Sending(ev, sender, message, room), receiver, key)
  {
    SendSeals(ev, sender, key, message, room);
    var (n, end) := (sender.session.txCounter, Sending(ev, sender, message, room));
    if end != sender {
      SentSnoc(ev, sender.sent, n, key, end.sent[n], receiver.got);
    }
  }

  /** What a send leaves of the direction it does not use. */
  lemma SendKeepsReverse(ev: Valuation, sender: End, receiver: End, key: Key, message: Message, room: nat)
    requires DirectionInv(ev, receiver, sender, key) && sender.session.txKey.Some?
    ensures DirectionInv(ev, receiver, Sending(ev, sender, message, room), key)
  {
    SendSeals(ev, sender, sender.session.txKey.value, message, room);
  }

  /** A tag on the wire under `key'` that verifies under `key` is `key`'s own, and for exactly this packet. */
  lemma ProducedForThis(ev: Valuation, sent: map<u64, Wire>, counter: u64, key': Key, key: Key, nonce: Nonce,
                        aad: Slice, ciphertext: Slice, tag: seq<Byte>) returns (n: u64)
    requires SentInv(ev, sent, counter, key') && ProducedBy(sent, tag) && tag == Tag(key, nonce, aad, ciphertext)
    ensures MacKey(key') == MacKey(key) && n in sent && nonce == NonceOf(n) && aad == sent[n].message.aad
    ensures ciphertext == WireCiphertext(ev, key', n, sent[n].message)
  {
    n :| n in sent && tag == sent[n].tag;
    TagInjective(key, nonce, aad, ciphertext, key', NonceOf(n), sent[n].message.aad,
                 WireCiphertext(ev, key', n, sent[n].message));
  }

  /** A tag accepted under one direction's key was made by that direction's sender, for exactly this packet. */
  lemma AcceptedWasSent(ev: Valuation, ch: Channel, keys: Keys, side: Side, nonce: Nonce, aad: Slice, ciphertext: Slice,
                        tag: seq<Byte>) returns (n: u64)
    requires ChannelInv(ev, ch, keys) && Produced(ch, tag)
    requires tag == Tag(if side == Left then keys.rx else keys.tx, nonce, aad, ciphertext)
    ensures n in At(ch, Other(side)).sent && nonce == NonceOf(n) && aad == At(ch, Other(side)).sent[n].message.aad
    ensures ciphertext == WireCiphertext(ev, if side == Left then keys.rx else keys.tx, n,
                                         At(ch, Other(side)).sent[n].message)
  {
    var key := if side == Left then keys.rx else keys.tx;
    var (l, r) := (ch.left, ch.right);
    if ProducedBy(l.sent, tag) {
      n := ProducedForThis(ev, l.sent, l.session.txCounter, keys.tx, key, nonce, aad, ciphertext, tag);
    } else {
      n := ProducedForThis(ev, r.sent, r.session.txCounter, keys.rx, key, nonce, aad, ciphertext, tag);
    }
  }

  lemma ReceivedSnoc(got: seq<Receipt>, r: Receipt)
    ensures Received(got + [r]) == Received(got) + {r.sequence}
  {
    var got' := got + [r];
    forall x | x in Received(got) + {r.sequence} ensures x in Received(got') {
      if x == r.sequence {
        assert got'[|got|].sequence == x;
      } else {
        var i :| 0 <= i < |got| && got[i].sequence == x;
        assert got'[i].sequence == x;
      }
    }
  }

  lemma SelectionSnoc(sent: map<u64, Wire>, got: seq<Receipt>, r: Receipt)
    requires Selection(sent, got) && r.sequence in sent && sent[r.sequence].message == r.message
    requires r.sequence !in Received(got)
    ensures Selection(sent, got + [r])
  {
  }

  /** The bookkeeping of one acceptance. */
  lemma AcceptKeepsDirection(ev: Valuation, sender: End, receiver: End, key: Key, n: u64, message: Message)
    requires DirectionInv(ev, sender, receiver, key)
    requires n in sender.sent && sender.sent[n].message == message && Accepts(receiver.session.window, NonceOf(n))
    ensures DirectionInv(ev, sender, End(CommitNonce(receiver.session, NonceOf(n)).state, receiver.sent,
                                     receiver.got + [Receipt(n, message)]), key)
  {
    NonceRoundTrip(n);
    AcceptsExactlyUnseen(receiver.session.window, Received(receiver.got), NonceOf(n));
    CommitRepresents(receiver.session.window, Received(receiver.got), n);
    ReceivedSnoc(receiver.got, Receipt(n, message));
    SelectionSnoc(sender.sent, receiver.got, Receipt(n, message));
  }

  /** What an acceptance leaves of the direction it does not use. */
  lemma AcceptKeepsReverse(ev: Valuation, sender: End, receiver: End, key: Key, nonce: Nonce, got: seq<Receipt>)
    requires DirectionInv(ev, receiver, sender, key)
    ensures DirectionInv(ev, End(CommitNonce(receiver.session, nonce).state, receiver.sent, got), sender, key)
  {
  }

  /** What a successful decryption returned, of a packet that was sent. */
  lemma OpensToSent(ev: Valuation, s: Session, key: Key, n: u64, message: Message, m: Move)
    requires m.Deliver? && s.rxKey == Some(key) && m.nonce == NonceOf(n)
    requires m.ciphertext == WireCiphertext(ev, key, n, message)
    requires DecryptPacket(ev, s, m.aad, m.ciphertext, m.nonce, m.tag, m.room).out.Ok?
    ensures DecryptPacket(ev, s, m.aad, m.ciphertext, m.nonce, m.tag, m.room)
            == Outcome(CommitNonce(s, NonceOf(n)).state, Ok(Plain(message.plaintext)))
    ensures Accepts(s.window, NonceOf(n)) && SequenceOf(m.nonce) == n
  {
    KeystreamInvolution(ev, EncKey(key), m.nonce, message.plaintext);
    NonceRoundTrip(n);
  }

  lemma OpeningNeedsTag(ev: Valuation, s: Session, m: Move)
    requires m.Deliver? && DecryptPacket(ev, s, m.aad, m.ciphertext, m.nonce, m.tag, m.room).out.Ok?
    ensures s.rxKey.Some? && m.tag == Tag(s.rxKey.value, m.nonce, m.aad, m.ciphertext)
  {
  }

  lemma FailureLeavesEnd(ev: Valuation, ch: Channel, m: Move)
    requires m.Deliver?
    requires DecryptPacket(ev, At(ch, m.side).session, m.aad, m.ciphertext, m.nonce, m.tag, m.room).out.Err?
    ensures Step(ev, ch, m) == ch
  {
  }

  lemma AcceptedStep(ev: Valuation, ch: Channel, m: Move, n: u64, message: Message)
    requires m.Deliver? && SequenceOf(m.nonce) == n && m.aad == message.aad
    requires DecryptPacket(ev, At(ch, m.side).session, m.aad, m.ciphertext, m.nonce, m.tag, m.room)
             == Outcome(CommitNonce(At(ch, m.side).session, NonceOf(n)).state, Ok(Plain(message.plaintext)))
    ensures Step(ev, ch, m) == Put(ch, m.side,
                                   End(CommitNonce(At(ch, m.side).session, NonceOf(n)).state, At(ch, m.side).sent,
                                       At(ch, m.side).got + [Receipt(n, message)]))
  {
  }

  /** A delivery either changes nothing or accepts a packet that was sent, with its plaintext. */
  lemma DeliveryDecides(ev: Valuation, ch: Channel, keys: Keys, m: Move) returns (n: u64)
    requires ChannelInv(ev, ch, keys) && m.Deliver? && Admissible(ch, keys, m)
    ensures var (sender, receiver) := (At(ch, Other(m.side)), At(ch, m.side));
            || Step(ev, ch, m) == ch
            || (&& n in sender.sent && Accepts(receiver.session.window, NonceOf(n))
                && Step(ev, ch, m) == Put(ch, m.side,
                                          End(CommitNonce(receiver.session, NonceOf(n)).state, receiver.sent,
                                              receiver.got + [Receipt(n, sender.sent[n].message)])))
  {
    var (sender, receiver) := (At(ch, Other(m.side)), At(ch, m.side));
    var key := if m.side == Left then keys.rx else keys.tx;
    n := 0;
    if DecryptPacket(ev, receiver.session, m.aad, m.ciphertext, m.nonce, m.tag, m.room).out.Ok? {
      OpeningNeedsTag(ev, receiver.session, m);
      n := AcceptedWasSent(ev, ch, keys, m.side, m.nonce, m.aad, m.ciphertext, m.tag);
      OpensToSent(ev, receiver.session, key, n, sender.sent[n].message, m);
      AcceptedStep(ev, ch, m, n, sender.sent[n].message);
    } else {
      FailureLeavesEnd(ev, ch, m);
    }
  }

  lemma DeliverKeepsInv(ev: Valuation, ch: Channel, keys: Keys, m: Move)
    requires ChannelInv(ev, ch, keys) && m.Deliver? && Admissible(ch, keys, m)
    ensures ChannelInv(ev, Step(ev, ch, m), keys)
  {
    var n := DeliveryDecides(ev, ch, keys, m);
    var (sender, receiver) := (At(ch, Other(m.side)), At(ch, m.side));
    var (key, back) := if m.side == Left then (keys.rx, keys.tx) else (keys.tx, keys.rx);
    if Step(ev, ch, m) != ch {
      AcceptKeepsDirection(ev, sender, receiver, key, n, sender.sent[n].message);
      AcceptKeepsReverse(ev, sender, receiver, back, NonceOf(n), receiver.got + [Receipt(n, sender.sent[n].message)]);
    }
  }

  lemma SendKeepsInv(ev: Valuation, ch: Channel, keys: Keys, side: Side, message: Message, room: nat)
    requires ChannelInv(ev, ch, keys)
    ensures ChannelInv(ev, Put(ch, side, Sending(ev, At(ch, side), message, room)), keys)
  {
    var (out, back) := if side == Left then (keys.tx, keys.rx) else (keys.rx, keys.tx);
    SendKeepsDirection(ev, At(ch, side), At(ch, Other(side)), out, message, room);
    SendKeepsReverse(ev, At(ch, side), At(ch, Other(side)), back, message, room);
  }

  /** Moving the counter on, with nothing sent, keeps both directions. */
  lemma CounterKeepsInv(ev: Valuation, ch: Channel, keys: Keys, side: Side, counter: u64)
    requires ChannelInv(ev, ch, keys) && At(ch, side).session.txCounter <= counter
    ensures ChannelInv(ev, Put(ch, side, At(ch, side).(session := At(ch, side).session.(txCounter := counter))), keys)
  {
    var end := At(ch, side);
    SentStays(ev, end.sent, end.session.txCounter, counter, if side == Left then keys.tx else keys.rx);
  }

  lemma SentStays(ev: Valuation, sent: map<u64, Wire>, counter: u64, counter': u64, key: Key)
    requires SentInv(ev, sent, counter, key) && counter <= counter'
    ensures SentInv(ev, sent, counter', key)
  {
  }

  lemma SkipMovesCounter(s: Session)
    ensures s.txCounter <= NextNonce(s).state.txCounter
    ensures NextNonce(s).state == s.(txCounter := NextNonce(s).state.txCounter)
  {
  }

  lemma StepKeepsInv(ev: Valuation, ch: Channel, keys: Keys, m: Move)
    requires ChannelInv(ev, ch, keys) && Admissible(ch, keys, m)
    ensures ChannelInv(ev, Step(ev, ch, m), keys)
  {
    match m
    case Deliver(_, _, _, _, _, _) => DeliverKeepsInv(ev, ch, keys, m);
    case Send(side, message, room) => SendKeepsInv(ev, ch, keys, side, message, room);
    case SkipNonce(side) =>
      SkipMovesCounter(At(ch, side).session);
      CounterKeepsInv(ev, ch, keys, side, NextNonce(At(ch, side).session).state.txCounter);
  }

  function Run(ev: Valuation, ch: Channel, moves: seq<Move>): Channel
    decreases |moves|
  {
    if moves == [] then ch else Run(ev, Step(ev, ch, moves[0]), moves[1..])
  }

  ghost predicate AdmissibleRun(ev: Valuation, ch: Channel, keys: Keys, moves: seq<Move>)
    decreases |moves|
  {
    moves != [] ==> Admissible(ch, keys, moves[0]) && AdmissibleRun(ev, Step(ev, ch, moves[0]), keys, moves[1..])
  }

  lemma {:induction false} RunKeepsInv(ev: Valuation, ch: Channel, keys: Keys, moves: seq<Move>)
    requires ChannelInv(ev, ch, keys) && AdmissibleRun(ev, ch, keys, moves)
    ensures ChannelInv(ev, Run(ev, ch, moves), keys)
    decreases |moves|
  {
    if moves != [] {
      StepKeepsInv(ev, ch, keys, moves[0]);
      RunKeepsInv(ev, Step(ev, ch, moves[0]), keys, moves[1..]);
    }
  }

  // ---- The channel theorem ----

  /** After a matched handshake, over every run of sends and deliveries, in both directions. */
  lemma ChannelTheorem(ev: Valuation, e: Event, f: Event, moves: seq<Move>)
    requires Genuine(e) && Genuine(f) && Matches(e, f)
    requires AdmissibleRun(ev, Open(ev, f.keys, e.keys), f.keys, moves)
    ensures var ch := Run(ev, Open(ev, f.keys, e.keys), moves);
            Selection(ch.left.sent, ch.right.got) && Selection(ch.right.sent, ch.left.got)
  {
    HandshakeOpensChannel(ev, e, f);
    RunKeepsInv(ev, Open(ev, f.keys, e.keys), f.keys, moves);
  }

  /**
   A packet as it was sent is accepted, with the plaintext it was made from, exactly when it is new and at most 63
   behind the newest accepted; with any other aad, or with its ciphertext changed, it is refused.
   */
  ghost predicate DeliveredExactly(ev: Valuation, ch: Channel, side: Side, n: u64, aad: Slice, ciphertext: Slice)
    requires n in At(ch, Other(side)).sent
  {
    var (receiver, wire) := (At(ch, side), At(ch, Other(side)).sent[n]);
    var got := Received(receiver.got);
    var out := DecryptPacket(ev, receiver.session, aad, ciphertext, wire.nonce, wire.tag, |ciphertext|).out;
    if n in got || exists x :: x in got && x > n + 63 then out == Err(InvalidState)
    else if aad == wire.message.aad && ciphertext == wire.ciphertext then out == Ok(Plain(wire.message.plaintext))
    else out.Err?
  }

  /** What a session that carries traffic and accepts the nonce makes of a sealed packet's tag. */
  lemma SealedOpens(ev: Valuation, s: Session, key: Key, n: u64, wire: Wire, aad: Slice, ciphertext: Slice)
    requires CarriesTraffic(s) && s.rxKey == Some(key) && Sealed(ev, key, n, wire)
    ensures var out := DecryptPacket(ev, s, aad, ciphertext, wire.nonce, wire.tag, |ciphertext|).out;
            if !Accepts(s.window, wire.nonce) then out == Err(InvalidState)
            else if aad == wire.message.aad && ciphertext == wire.ciphertext
            then out == Ok(Plain(wire.message.plaintext)) else out.Err?
  {
    OpenInvertsSeal(ev, key, NonceOf(n), wire.message.aad, wire.message.plaintext, NonceOf(n), aad, ciphertext);
  }

  lemma GenuineDelivery(ev: Valuation, ch: Channel, keys: Keys, side: Side, n: u64, aad: Slice, ciphertext: Slice)
    requires ChannelInv(ev, ch, keys) && n in At(ch, Other(side)).sent
    ensures DeliveredExactly(ev, ch, side, n, aad, ciphertext)
  {
    var (receiver, wire) := (At(ch, side), At(ch, Other(side)).sent[n]);
    NonceRoundTrip(n);
    AcceptsExactlyUnseen(receiver.session.window, Received(receiver.got), NonceOf(n));
    SealedOpens(ev, receiver.session, if side == Left then keys.rx else keys.tx, n, wire, aad, ciphertext);
  }

  /** So it is at every point of every run after a matched handshake. */
  lemma GenuineDeliveryOnEveryRun(ev: Valuation, e: Event, f: Event, moves: seq<Move>, side: Side, n: u64, aad: Slice,
                                  ciphertext: Slice)
    requires Genuine(e) && Genuine(f) && Matches(e, f)
    requires AdmissibleRun(ev, Open(ev, f.keys, e.keys), f.keys, moves)
    requires n in At(Run(ev, Open(ev, f.keys, e.keys), moves), Other(side)).sent
    ensures DeliveredExactly(ev, Run(ev, Open(ev, f.keys, e.keys), moves), side, n, aad, ciphertext)
  {
    HandshakeOpensChannel(ev, e, f);
    RunKeepsInv(ev, Open(ev, f.keys, e.keys), f.keys, moves);
    GenuineDelivery(ev, Run(ev, Open(ev, f.keys, e.keys), moves), f.keys, side, n, aad, ciphertext);
  }

  /**
   An end with keys sends any message of an admissible length, in a buffer of that length, until the counter ends;
   the packet is filed under the counter, and nothing else changes.
   */
  ghost predicate SendsExactly(ev: Valuation, end: End, message: Message, room: nat) {
    var (n, end') := (end.session.txCounter, Sending(ev, end, message, room));
    if room == |message.plaintext| <= CHACHA20_MAX_BYTES && n < U64_MAX
    then n !in end.sent && n in end'.sent && end'.sent[n].message == message
         && end' == End(end.session.(txCounter := n + 1), end.sent[n := end'.sent[n]], end.got)
    else end' == end
  }

  lemma SendSucceedsIff(ev: Valuation, end: End, key: Key, message: Message, room: nat)
    requires CarriesTraffic(end.session) && end.session.txKey == Some(key)
    requires SentInv(ev, end.sent, end.session.txCounter, key)
    ensures SendsExactly(ev, end, message, room)
  {
    SendSeals(ev, end, key, message, room);
  }

  /** So it is at every point of every run after a matched handshake. */
  lemma SendingOnEveryRun(ev: Valuation, e: Event, f: Event, moves: seq<Move>, side: Side, message: Message, room: nat)
    requires Genuine(e) && Genuine(f) && Matches(e, f)
    requires AdmissibleRun(ev, Open(ev, f.keys, e.keys), f.keys, moves)
    ensures SendsExactly(ev, At(Run(ev, Open(ev, f.keys, e.keys), moves), side), message, room)
  {
    HandshakeOpensChannel(ev, e, f);
    RunKeepsInv(ev, Open(ev, f.keys, e.keys), f.keys, moves);
    var end := At(Run(ev, Open(ev, f.keys, e.keys), moves), side);
    SendSucceedsIff(ev, end, if side == Left then f.keys.tx else f.keys.rx, message, room);
  }
}
