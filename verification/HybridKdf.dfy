/**
 Hybrid key derivation and the directional split of its output.
 */
module HybridKdf {
  import opened SymbolicCrypto

  const KEY_CONFIRMATION_INFO_LABEL := "ShawnCore-auth-v2 key confirmation"

  /** HKDF-Extract (section 2.2 of RFC 5869): an HMAC keyed by the salt. */
  function Extract(salt: seq<Byte>, pq: seq<Byte>, classical: seq<Byte>): (prk: seq<Byte>)
    ensures |prk| == 48
  {
    Hmac(salt, pq + classical)
  }

  function ConfirmationInfo(inner: seq<Byte>): seq<Byte> {
    Ascii(KEY_CONFIRMATION_INFO_LABEL) + [Raw(0)] + inner
  }

  function SessionMaterial(prk: seq<Byte>, info: seq<Byte>): (r: seq<Byte>)
    ensures |r| == 128
  {
    Expand(prk, info, 128)
  }

  function ConfirmationMaterial(prk: seq<Byte>, info: seq<Byte>): (r: seq<Byte>)
    ensures |r| == 96
  {
    Expand(prk, ConfirmationInfo(info), 96)
  }

  // ---- The derivations, on the caller's secret buffers ----

  method Zeroize(secret: array<Byte>)
    modifies secret
    ensures secret[..] == Zeros(secret.Length)
  {
    for i := 0 to secret.Length
      invariant secret[..i] == Zeros(i)
    {
      secret[i] := Raw(0);
    }
  }

  /** Derives the session bytes and zeroizes the two shared secrets. */
  method DeriveHybridKey(pq: array<Byte>, classical: array<Byte>, salt: seq<Byte>, info: seq<Byte>)
      returns (session: seq<Byte>)
    requires pq.Length == classical.Length == 32 && pq != classical
    modifies pq, classical
    ensures session == SessionMaterial(Extract(salt, old(pq[..]), old(classical[..])), info)
    ensures pq[..] == classical[..] == Zeros(32)
  {
    var prk := Hmac(salt, pq[..] + classical[..]);
    session := Expand(prk, info, 128);
    Zeroize(pq);
    Zeroize(classical);
  }

  /** Derives both outputs from one PRK, under the two infos the caller gives, and zeroizes the two shared secrets. */
  method DeriveHybridKeyWithConfirmation(pq: array<Byte>, classical: array<Byte>, salt: seq<Byte>, info: seq<Byte>,
                                         confirmationInfo: seq<Byte>)
      returns (session: seq<Byte>, confirmation: seq<Byte>)
    requires pq.Length == classical.Length == 32 && pq != classical
    modifies pq, classical
    ensures session == SessionMaterial(Extract(salt, old(pq[..]), old(classical[..])), info)
    ensures confirmation == Expand(Extract(salt, old(pq[..]), old(classical[..])), confirmationInfo, 96)
    ensures pq[..] == classical[..] == Zeros(32)
  {
    var prk := Hmac(salt, pq[..] + classical[..]);
    session := Expand(prk, info, 128);
    confirmation := Expand(prk, confirmationInfo, 96);
    Zeroize(pq);
    Zeroize(classical);
  }

  /** No session's confirmation info is any session's own info: both are built on transcripts of one length. */
  lemma InfosDiffer(info: seq<Byte>, info': seq<Byte>)
    requires |info| == |info'|
    ensures ConfirmationInfo(info) != info'
  {
    assert |ConfirmationInfo(info)| == |KEY_CONFIRMATION_INFO_LABEL| + 1 + |info|;
  }

  // ---- Splitting the 128 bytes by role ----

  type Key = k: seq<Byte> | |k| == 64 witness Zeros(64)

  datatype Keys = Keys(tx: Key, rx: Key)

  function KeygenSplit(okm: seq<Byte>): Keys
    requires |okm| == 128
  {
    Keys(okm[..32] + okm[96..], okm[32..96])
  }

  function EncapsulatorSplit(okm: seq<Byte>): Keys
    requires |okm| == 128
  {
    Keys(okm[32..96], okm[..32] + okm[96..])
  }

  /** The encryption half and the MAC half of a directional key. */
  function EncKey(key: Key): seq<Byte> { key[..32] }
  function MacKey(key: Key): seq<Byte> { key[32..] }

  /** The four keys of a session: encryption and MAC, each way. */
  function Halves(keys: Keys): seq<seq<Byte>> { [EncKey(keys.tx), MacKey(keys.tx), EncKey(keys.rx), MacKey(keys.rx)] }

  /** Where in the 128 bytes each of the four keys begins. */
  function Offset(a: nat): nat { if a == 0 then 0 else if a == 1 then 96 else if a == 2 then 32 else 64 }

  lemma HalfByte(prk: seq<Byte>, info: seq<Byte>, a: nat, i: nat)
    requires a < 4 && i < 32
    ensures |Halves(KeygenSplit(SessionMaterial(prk, info)))[a]| == 32
    ensures Halves(KeygenSplit(SessionMaterial(prk, info)))[a][i] == OkmByte(prk, info, Offset(a) + i)
  {
    var okm := SessionMaterial(prk, info);
    var (tx, rx) := (KeygenSplit(okm).tx, KeygenSplit(okm).rx);
    match a
    case 0 => assert EncKey(tx)[i] == tx[i] == okm[i];
    case 1 => assert MacKey(tx)[i] == tx[32 + i] == okm[96 + i];
    case 2 => assert EncKey(rx)[i] == rx[i] == okm[32 + i];
    case 3 => assert MacKey(rx)[i] == rx[32 + i] == okm[64 + i];
  }

  /** The four keys of a session share no byte of the derived material: they use each of its 128 bytes once. */
  lemma KeysShareNoByte(prk: seq<Byte>, info: seq<Byte>, a: nat, i: nat, b: nat, j: nat)
    requires a < 4 && b < 4 && i < 32 && j < 32
    ensures var halves := Halves(KeygenSplit(SessionMaterial(prk, info)));
            |halves[a]| == |halves[b]| == 32 && (halves[a][i] == halves[b][j] <==> a == b && i == j)
  {
    HalfByte(prk, info, a, i);
    HalfByte(prk, info, b, j);
  }

  /** Within one session the two directions share neither an encryption key nor a MAC key. */
  lemma DirectionsDiffer(prk: seq<Byte>, info: seq<Byte>)
    ensures var k := KeygenSplit(SessionMaterial(prk, info));
            EncKey(k.tx) != EncKey(k.rx) && MacKey(k.tx) != MacKey(k.rx)
  {
    KeysShareNoByte(prk, info, 0, 0, 2, 0);
    KeysShareNoByte(prk, info, 1, 0, 3, 0);
  }

  // ---- What a confirmation key proves ----

  function EncapsulatorConfirmationKey(material: seq<Byte>): (r: seq<Byte>)
    requires |material| == 96
    ensures |r| == 48
  {
    material[..48]
  }

  function KeygenConfirmationKey(material: seq<Byte>): (r: seq<Byte>)
    requires |material| == 96
    ensures |r| == 48
  {
    material[48..]
  }

  /** Sharing either confirmation key means sharing the PRK and the info, hence the session keys. */
  lemma ConfirmationKeyDeterminesSession(prk: seq<Byte>, info: seq<Byte>, prk': seq<Byte>, info': seq<Byte>)
    requires |info| == |info'|
    requires var m, m' := ConfirmationMaterial(prk, info), ConfirmationMaterial(prk', info');
             || EncapsulatorConfirmationKey(m) == EncapsulatorConfirmationKey(m')
             || KeygenConfirmationKey(m) == KeygenConfirmationKey(m')
    ensures prk == prk' && info == info'
  {
    var m, m' := ConfirmationMaterial(prk, info), ConfirmationMaterial(prk', info');
    assert m[0] == EncapsulatorConfirmationKey(m)[0] && m'[0] == EncapsulatorConfirmationKey(m')[0];
    assert m[48] == KeygenConfirmationKey(m)[0] && m'[48] == KeygenConfirmationKey(m')[0];
    var front := Ascii(KEY_CONFIRMATION_INFO_LABEL) + [Raw(0)];
    assert ConfirmationInfo(info) == ConfirmationInfo(info');
    SplitConcat(front, info, front, info');
  }

  /** Equal PRKs come from equal secrets and from salts with the same HMAC key block. */
  lemma ExtractInjective(salt: seq<Byte>, pq: seq<Byte>, dh: seq<Byte>, salt': seq<Byte>, pq': seq<Byte>,
                         dh': seq<Byte>)
    requires |pq| == |pq'| && Extract(salt, pq, dh) == Extract(salt', pq', dh')
    ensures KeyBlock(salt) == KeyBlock(salt') && pq == pq' && dh == dh'
  {
    HmacInjective(salt, pq + dh, salt', pq' + dh');
    SplitConcat(pq, dh, pq', dh');
  }
}
