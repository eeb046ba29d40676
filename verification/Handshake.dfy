/**
 * The peer handshake: what each reading state does with the bytes there are,
 * the loop that runs the states, and how a handshake ends. The key stream and
 * the hashes that the keys exchanged give are inputs.
 */
module Handshakes {
  import opened ByteSearch

  datatype State =
    | AwaitingHandshake | AwaitingPeerId | AwaitingYa | AwaitingPadA | AwaitingCryptoProvide | AwaitingPadC
    | AwaitingIa | AwaitingPayloadStream | AwaitingYb | AwaitingVc | AwaitingCryptoSelect | AwaitingPadD

  datatype ReadState = ReadNow | ReadLater | ReadErr

  datatype EncryptionMode = ClearPreferred | EncryptionPreferred | EncryptionRequired

  const PLAINTEXT: nat := 1
  const CRYPTO: nat := 2

  const HANDSHAKE_NAME_LEN: nat := 20
  const HANDSHAKE_SIZE: nat := 68
  const INCOMING_HANDSHAKE_LEN: nat := 48
  const PEER_ID_LEN: nat := 20
  const KEY_LEN: nat := 96
  const SHA_DIGEST_LENGTH: nat := 20
  const VC_LENGTH: nat := 8
  const PAD_MAXLEN: nat := 512

  /** "\023BitTorrent protocol" */
  const HANDSHAKE_NAME: seq<Byte> := [19, 66, 105, 116, 84, 111, 114, 114, 101, 110, 116, 32, 112, 114, 111, 116, 111, 99, 111, 108]

  type Digest = s: seq<Byte> | |s| == SHA_DIGEST_LENGTH witness seq(SHA_DIGEST_LENGTH, i => 0)

  datatype Option<T> = None | Some(value: T)

  /** What the secret shared with the owner of a key gives: the peer's key stream, and two of the hashes. */
  datatype Secret = Secret(stream: nat -> Byte, req1: Digest, req3: Digest)

  /** What a state learns from the session and the callback. */
  datatype World = World(
    isKnown: Digest -> bool,
    findFromObfuscated: Digest -> Option<Digest>,
    bothAreSeeds: Digest -> bool,
    ownId: Digest -> seq<Byte>,
    callbackOk: bool)

  /** What can happen to a handshake from outside. */
  datatype Happening =
    | Bytes(data: seq<Byte>, worlds: State -> World)
    | Error(overUtp: bool, firstReconnects: bool, secondReconnects: bool, callbackOk: bool)
    | Timeout(callbackOk: bool)

  predicate HasBit(value: nat, bit: nat)
    requires bit == PLAINTEXT || bit == CRYPTO
  {
    value / bit % 2 == 1
  }

  /** `value` & `other`, for the two bits there are. */
  predicate Overlap(value: nat, other: nat)
  {
    (HasBit(value, PLAINTEXT) && HasBit(other, PLAINTEXT)) || (HasBit(value, CRYPTO) && HasBit(other, CRYPTO))
  }

  // ---- bytes as they are read ---------------------------------------------

  function Xor(a: seq<Byte>, b: seq<Byte>): (r: seq<Byte>)
    requires |a| == |b|
    ensures |r| == |a|
  {
    seq(|a|, i requires 0 <= i < |a| => a[i] ^ b[i])
  }

  /** The part of a key stream that meets the `n` bytes from `pos` on. */
  function KeyBytes(stream: nat -> Byte, pos: nat, n: nat): (r: seq<Byte>)
    ensures |r| == n
  {
    seq(n, i requires 0 <= i < n => stream(pos + i))
  }

  function Decrypted(bytes: seq<Byte>, stream: nat -> Byte, pos: nat): (r: seq<Byte>)
    ensures |r| == |bytes|
  {
    Xor(bytes, KeyBytes(stream, pos, |bytes|))
  }

  function Number16(b: seq<Byte>): nat
    requires |b| == 2
  {
    b[0] as nat * 256 + b[1] as nat
  }

  function Number32(b: seq<Byte>): nat
    requires |b| == 4
  {
    Number16(b[..2]) * 0x1_0000 + Number16(b[2..])
  }

  const VC: seq<Byte> := seq(VC_LENGTH, i => 0)

  lemma XorSelf(a: Byte, b: Byte)
    ensures a ^ b == 0 <==> a == b
  {
  }

  /** Bytes decrypt to zeroes just where they are the key stream. */
  lemma ShowsVc(bytes: seq<Byte>, stream: nat -> Byte)
    requires |bytes| == VC_LENGTH
    ensures Decrypted(bytes, stream, 0) == VC <==> bytes == KeyBytes(stream, 0, VC_LENGTH)
  {
    var key := KeyBytes(stream, 0, VC_LENGTH);
    forall i | 0 <= i < VC_LENGTH
      ensures Decrypted(bytes, stream, 0)[i] == VC[i] <==> bytes[i] == key[i]
    {
      XorSelf(bytes[i], key[i]);
    }
  }

  /** An encrypted handshake looks like a plaintext one just where the key stream is zero. */
  lemma LooksPlain(bytes: seq<Byte>, stream: nat -> Byte, pos: nat)
    requires bytes != [] && Decrypted(bytes, stream, pos)[0] == HANDSHAKE_NAME[0]
    ensures bytes[0] == HANDSHAKE_NAME[0] <==> stream(pos) == 0
  {
    assert bytes[0] ^ stream(pos) == 19;
  }

  // ---- which encryption to offer and to take -------------------------------

  function GetCryptoProvide(mode: EncryptionMode): nat {
    if mode == ClearPreferred then CRYPTO + PLAINTEXT else CRYPTO
  }

  function Choices(mode: EncryptionMode): seq<nat> {
    match mode
    case EncryptionRequired => [CRYPTO]
    case EncryptionPreferred => [CRYPTO, PLAINTEXT]
    case ClearPreferred => [PLAINTEXT, CRYPTO]
  }

  /** getCryptoSelect(): the first of our choices the peer provides. */
  method GetCryptoSelect(mode: EncryptionMode, cryptoProvide: nat) returns (r: nat)
    ensures r == 0 || (r in Choices(mode) && HasBit(cryptoProvide, r))
    ensures r == 0 <==> forall c :: c in Choices(mode) ==> !HasBit(cryptoProvide, c)
    ensures mode == EncryptionRequired ==> r != PLAINTEXT
  {
    var choices := Choices(mode);
    for i := 0 to |choices|
      invariant forall k :: 0 <= k < i ==> !HasBit(cryptoProvide, choices[k])
    {
      if HasBit(cryptoProvide, choices[i]) {
        return choices[i];
      }
    }
    return 0;
  }

  /** The order in which states can follow one another without waiting. */
  function Rank(s: State): nat {
    match s
    case AwaitingYb => 0
    case AwaitingVc => 1
    case AwaitingCryptoSelect => 2
    case AwaitingPadD => 3
    case AwaitingHandshake => 4
    case AwaitingYa => 5
    case AwaitingPadA => 6
    case AwaitingCryptoProvide => 7
    case AwaitingPadC => 8
    case AwaitingIa => 9
    case AwaitingPayloadStream => 10
    case AwaitingPeerId => 11
  }

  /** The states of an incoming encrypted handshake, after the peer's key has been seen to come. */
  predicate IncomingCrypto(s: State) { 5 <= Rank(s) <= 10 }

  /** The states of an outgoing encrypted handshake. */
  predicate OutgoingCrypto(s: State) { Rank(s) <= 3 }

  class Handshake {
    const isIncoming: bool
    const mode: EncryptionMode
    var state: State
    /** The encryption of the connection. */
    var encryption: nat
    /** What the keys exchanged will give. */
    const secrets: seq<Byte> -> Secret
    var inbuf: seq<Byte>
    /** The peer's key, once it has been read, and how much of its key stream has been used. */
    var peerKey: seq<Byte>
    var decryptPos: nat
    var torrentHash: Option<Digest>
    var haveReadAnythingFromPeer: bool
    var havePeerID: bool
    var haveSentBitTorrentHandshake: bool
    var padCLen: nat
    var padDLen: nat
    var iaLen: nat
    var cryptoSelect: nat
    var cryptoProvide: nat
    /** The calls of the callback, with what they reported. */
    var done: seq<bool>

    function Shared(): Secret
      reads this
    {
      secrets(peerKey)
    }

    /** The bytes there are, as tr_peerIoReadBytes() gives them. */
    function Clear(): (r: seq<Byte>)
      reads this
      ensures |r| == |inbuf|
    {
      if encryption == CRYPTO then Decrypted(inbuf, Shared().stream, decryptPos) else inbuf
    }

    /** The handshake has not been freed. */
    predicate Alive()
      reads this
    {
      done == []
    }

    /** The peer's choice has something in common with what was offered. */
    predicate Offered()
      reads this
    {
      Overlap(cryptoSelect, GetCryptoProvide(mode))
    }

    /** An incoming connection uses what it asked for and we allow. */
    predicate Agreed()
      reads this
    {
      isIncoming && encryption in Choices(mode) && HasBit(cryptoProvide, encryption)
    }

    /** The connection uses what the first byte of the peer's handshake showed. */
    predicate Recognised()
      reads this
    {
      if isIncoming then encryption == PLAINTEXT && mode != EncryptionRequired
      else encryption == CRYPTO || (encryption == PLAINTEXT && mode != EncryptionRequired)
    }

    /** There are too few bytes for the state to go on. */
    predicate Starved()
      reads this
    {
      match state
      case AwaitingHandshake => |inbuf| < INCOMING_HANDSHAKE_LEN
      case AwaitingPeerId => |inbuf| < PEER_ID_LEN
      case AwaitingYa => |inbuf| < KEY_LEN
      case AwaitingPadA => |inbuf| <= SHA_DIGEST_LENGTH
      case AwaitingCryptoProvide => |inbuf| < 2 * SHA_DIGEST_LENGTH + VC_LENGTH + 6
      case AwaitingPadC => |inbuf| < padCLen + 2
      case AwaitingIa => |inbuf| < iaLen
      case AwaitingPayloadStream => |inbuf| < HANDSHAKE_SIZE
      case AwaitingYb => |inbuf| < KEY_LEN
      case AwaitingVc => |inbuf| < VC_LENGTH
      case AwaitingCryptoSelect => |inbuf| < 6
      case AwaitingPadD => |inbuf| < padDLen
    }

    /** What every step keeps. */
    ghost predicate Valid()
      reads this
    {
      && |done| <= 1
      && (Alive() ==>
            && (isIncoming ==> !OutgoingCrypto(state)) && (!isIncoming ==> !IncomingCrypto(state))
            && (5 <= Rank(state) <= 9 || 1 <= Rank(state) <= 3 ==> encryption == CRYPTO)
            && (torrentHash.None? <==> isIncoming && 4 <= Rank(state) <= 7)
            && (state == AwaitingPadD ==> Offered() && padDLen <= PAD_MAXLEN)
            && (state == AwaitingPayloadStream ==> Agreed())
            && (state == AwaitingPeerId ==> Recognised())
            && (state == AwaitingPeerId || state == AwaitingPayloadStream ==> haveSentBitTorrentHandshake))
      && (done == [true] ==>
            && havePeerID && haveSentBitTorrentHandshake
            && (Agreed() || Recognised())
            && (mode == EncryptionRequired ==> encryption == CRYPTO))
    }

    /** tr_handshakeNew(): an outgoing connection knows its torrent. */
    constructor (isIncoming: bool, mode: EncryptionMode, secrets: seq<Byte> -> Secret, torrentHash: Option<Digest>)
      requires torrentHash.None? <==> isIncoming
      ensures Valid() && Alive() && this.isIncoming == isIncoming && this.mode == mode && this.torrentHash == torrentHash
    {
      this.isIncoming := isIncoming;
      this.mode := mode;
      this.secrets := secrets;
      this.torrentHash := torrentHash;
      encryption := PLAINTEXT;
      inbuf := [];
      peerKey, decryptPos := [], 0;
      haveReadAnythingFromPeer, havePeerID := false, false;
      haveSentBitTorrentHandshake := !isIncoming && mode == ClearPreferred;
      padCLen, padDLen, iaLen, cryptoSelect, cryptoProvide := 0, 0, 0, 0, 0;
      done := [];
      state := if isIncoming || mode == ClearPreferred then AwaitingHandshake else AwaitingYb;
    }

    /** tr_handshakeDone(): the callback is called and the handshake freed. */
    method Done(isOk: bool, callbackOk: bool) returns (r: ReadState)
      requires Valid() && Alive()
      requires isOk ==> havePeerID && haveSentBitTorrentHandshake && (Agreed() || Recognised())
      modifies `done
      ensures Valid() && done == [isOk] && r == if callbackOk then ReadLater else ReadErr
    {
      done := done + [isOk];
      assert done == [isOk];
      r := if callbackOk then ReadLater else ReadErr;
    }

    /** tr_peerIoReadBytes() */
    method ReadBytes(n: nat) returns (bytes: seq<Byte>)
      requires n <= |inbuf| && (encryption == PLAINTEXT || encryption == CRYPTO)
      modifies `inbuf, `decryptPos
      ensures |bytes| == n && bytes == old(Clear())[..n] && Clear() == old(Clear())[n..]
      ensures inbuf == old(inbuf)[n..] && decryptPos == old(decryptPos) + if encryption == CRYPTO then n else 0
    {
      bytes := if encryption == CRYPTO then Decrypted(inbuf[..n], Shared().stream, decryptPos) else inbuf[..n];
      if encryption == CRYPTO {
        decryptPos := decryptPos + n;
      }
      inbuf := inbuf[n..];
    }

    /** tr_peerIoReadUint16() */
    method ReadUint16() returns (n: nat)
      requires 2 <= |inbuf| && (encryption == PLAINTEXT || encryption == CRYPTO)
      modifies `inbuf, `decryptPos
      ensures n == Number16(old(Clear())[..2]) && Clear() == old(Clear())[2..]
      ensures inbuf == old(inbuf)[2..] && decryptPos == old(decryptPos) + if encryption == CRYPTO then 2 else 0
    {
      var bytes := ReadBytes(2);
      n := Number16(bytes);
    }

    /** tr_peerIoReadUint32() */
    method ReadUint32() returns (n: nat)
      requires 4 <= |inbuf| && (encryption == PLAINTEXT || encryption == CRYPTO)
      modifies `inbuf, `decryptPos
      ensures n == Number32(old(Clear())[..4]) && Clear() == old(Clear())[4..]
      ensures inbuf == old(inbuf)[4..] && decryptPos == old(decryptPos) + if encryption == CRYPTO then 4 else 0
    {
      var bytes := ReadBytes(4);
      n := Number32(bytes);
    }

    /** What a state handler comes to: on with the next state, or no more for now, or the end. */
    twostate predicate Handled(r: ReadState)
      reads this
    {
      && Valid() && (r == ReadNow ==> Alive() && Rank(old(state)) < Rank(state))
      && (Alive() ==> r != ReadErr)
      && (Alive() && r == ReadLater ==> if old(state) == AwaitingYb && state == AwaitingVc then true else state == old(state) && Starved())
      && Suffix(inbuf, old(inbuf))
    }

    /** readYb() */
    method ReadYb() returns (r: ReadState)
      requires Valid() && Alive() && state == AwaitingYb
      modifies this
      ensures Handled(r)
      ensures |old(inbuf)| >= KEY_LEN && !(HANDSHAKE_NAME <= old(inbuf)) ==>
                Alive() && state == AwaitingVc && encryption == CRYPTO && peerKey == old(inbuf)[..KEY_LEN] && inbuf == old(inbuf)[KEY_LEN..]
      ensures HANDSHAKE_NAME <= old(inbuf) ==>
                Alive() && state == AwaitingHandshake && encryption == PLAINTEXT && inbuf == old(inbuf)
    {
      if |inbuf| < HANDSHAKE_NAME_LEN {
        return ReadLater;
      }
      var isEncrypted := inbuf[..HANDSHAKE_NAME_LEN] != HANDSHAKE_NAME;
      if isEncrypted && |inbuf| < KEY_LEN {
        return ReadLater;
      }
      encryption := if isEncrypted then CRYPTO else PLAINTEXT;
      if !isEncrypted {
        state := AwaitingHandshake;
        return ReadNow;
      }
      haveReadAnythingFromPeer := true;
      peerKey, inbuf := inbuf[..KEY_LEN], inbuf[KEY_LEN..];
      encryption := CRYPTO;
      haveSentBitTorrentHandshake := true;
      decryptPos := 0;
      state := AwaitingVc;
      return ReadLater;
    }

    /** The verification constant as it comes from the peer. */
    function EncryptedVc(): (r: seq<Byte>)
      reads this
      ensures |r| == VC_LENGTH
    {
      KeyBytes(Shared().stream, 0, VC_LENGTH)
    }

    /** readVC(): bytes are dropped one at a time until the constant shows up. */
    method ReadVc() returns (r: ReadState)
      requires Valid() && Alive() && state == AwaitingVc
      modifies this
      ensures Handled(r) && peerKey == old(peerKey)
      ensures r == ReadNow <==> Search(old(inbuf), EncryptedVc()) >= 0
      ensures r == ReadNow ==>
                && state == AwaitingCryptoSelect && decryptPos == VC_LENGTH
                && inbuf == old(inbuf)[Search(old(inbuf), EncryptedVc()) + VC_LENGTH..]
      ensures r != ReadNow ==> inbuf == Kept(old(inbuf), VC_LENGTH - 1)
    {
      var found := SkipToVc();
      if !found {
        return ReadLater;
      }
      inbuf := inbuf[VC_LENGTH..];
      state := AwaitingCryptoSelect;
      return ReadNow;
    }

    /** Drop bytes until those that follow decrypt to the constant, or too few are left. */
    method SkipToVc() returns (found: bool)
      modifies `inbuf, `decryptPos
      ensures found <==> Search(old(inbuf), EncryptedVc()) >= 0
      ensures found ==> inbuf == old(inbuf)[Search(old(inbuf), EncryptedVc())..] && |inbuf| >= VC_LENGTH && decryptPos == VC_LENGTH
      ensures !found ==> inbuf == Kept(old(inbuf), VC_LENGTH - 1)
    {
      ghost var all, skipped: nat := inbuf, 0;
      while true
        invariant skipped <= |all| && inbuf == all[skipped..] && (skipped > 0 ==> |inbuf| >= VC_LENGTH - 1)
        invariant NotBefore(all, EncryptedVc(), skipped)
        decreases |inbuf|
      {
        if |inbuf| < VC_LENGTH {
          NotFound(all, EncryptedVc(), skipped);
          return false;
        }
        decryptPos := VC_LENGTH;
        ShowsVc(inbuf[..VC_LENGTH], Shared().stream);
        assert inbuf[..VC_LENGTH] == all[skipped..skipped + VC_LENGTH];
        if Decrypted(inbuf[..VC_LENGTH], Shared().stream, 0) == VC {
          FoundFirst(all, EncryptedVc(), skipped);
          return true;
        }
        inbuf := inbuf[1..];
        skipped := skipped + 1;
      }
    }

    /** readCryptoSelect() */
    method ReadCryptoSelect(w: World) returns (r: ReadState)
      requires Valid() && Alive() && state == AwaitingCryptoSelect
      modifies this
      ensures Handled(r)
      ensures |old(inbuf)| >= 6 ==>
                var fields := old(Clear());
                var select, padLen := Number32(fields[..4]), Number16(fields[4..6]);
                && (Alive() <==> Overlap(select, GetCryptoProvide(mode)) && padLen <= PAD_MAXLEN)
                && (Alive() ==> state == AwaitingPadD && cryptoSelect == select && padDLen == padLen && inbuf == old(inbuf)[6..])
    {
      if |inbuf| < 6 {
        return ReadLater;
      }
      cryptoSelect := ReadUint32();
      assert Clear()[..2] == old(Clear())[4..6];
      if !Overlap(cryptoSelect, GetCryptoProvide(mode)) {
        r := Done(false, w.callbackOk);
        return;
      }
      r := ReadPadLen(w);
    }

    /** The length of the padding after a choice that will do. */
    method ReadPadLen(w: World) returns (r: ReadState)
      requires Valid() && Alive() && state == AwaitingCryptoSelect && Offered() && |inbuf| >= 2
      modifies this
      ensures Handled(r) && cryptoSelect == old(cryptoSelect)
      ensures Alive() <==> Number16(old(Clear())[..2]) <= PAD_MAXLEN
      ensures Alive() ==> state == AwaitingPadD && padDLen == Number16(old(Clear())[..2]) && inbuf == old(inbuf)[2..]
    {
      var padLen := ReadUint16();
      if padLen > PAD_MAXLEN {
        r := Done(false, w.callbackOk);
        return;
      }
      padDLen := padLen;
      state := AwaitingPadD;
      return ReadNow;
    }

    /** readPadD(): the peer's choice, whatever its value, becomes the connection's encryption. */
    method ReadPadD() returns (r: ReadState)
      requires Valid() && Alive() && state == AwaitingPadD
      modifies this
      ensures Handled(r)
      ensures |old(inbuf)| >= old(padDLen) ==>
                && Alive() && state == AwaitingHandshake && encryption == cryptoSelect && cryptoSelect == old(cryptoSelect)
                && inbuf == old(inbuf)[old(padDLen)..] && decryptPos == old(decryptPos) + old(padDLen)
    {
      if |inbuf| < padDLen {
        return ReadLater;
      }
      var pad := ReadBytes(padDLen);
      encryption := cryptoSelect;
      state := AwaitingHandshake;
      return ReadNow;
    }

    /** A handshake up to the torrent: its name and the hash are right. */
    predicate Greets(bytes: seq<Byte>, w: World)
      requires |bytes| >= INCOMING_HANDSHAKE_LEN
      reads this
    {
      && HANDSHAKE_NAME <= bytes
      && var hash: Digest := bytes[28..48];
      if torrentHash.None? then w.isKnown(hash) else hash == torrentHash.value
    }

    /** readHandshake(): the first byte tells plaintext from encryption, whatever was agreed before. */
    method ReadHandshake(w: World) returns (r: ReadState)
      requires Valid() && Alive() && state == AwaitingHandshake
      modifies this
      ensures Handled(r)
      ensures |old(inbuf)| >= INCOMING_HANDSHAKE_LEN && old(inbuf)[0] != 19 && isIncoming ==>
                Alive() && state == AwaitingYa && inbuf == old(inbuf)
      ensures |old(inbuf)| >= INCOMING_HANDSHAKE_LEN && old(inbuf)[0] == 19 ==>
                (Alive() <==> mode != EncryptionRequired && old(Greets(inbuf, w)))
      ensures |old(inbuf)| >= INCOMING_HANDSHAKE_LEN && old(inbuf)[0] != 19 && !isIncoming ==>
                (Alive() <==> old(Greets(Decrypted(inbuf, Shared().stream, decryptPos), w)))
      ensures |old(inbuf)| >= INCOMING_HANDSHAKE_LEN && Alive() && state != AwaitingYa ==>
                && state == AwaitingPeerId && inbuf == old(inbuf)[INCOMING_HANDSHAKE_LEN..]
                && encryption == (if old(inbuf)[0] == 19 then PLAINTEXT else CRYPTO)
                && torrentHash.Some?
                && torrentHash.value == if encryption == CRYPTO
                                        then old(Decrypted(inbuf, Shared().stream, decryptPos))[28..48]
                                        else old(inbuf)[28..48]
    {
      if |inbuf| < INCOMING_HANDSHAKE_LEN {
        return ReadLater;
      }
      haveReadAnythingFromPeer := true;
      encryption := if inbuf[0] == 19 then PLAINTEXT else CRYPTO;
      if encryption == PLAINTEXT {
        if mode == EncryptionRequired {
          r := Done(false, w.callbackOk);
          return;
        }
      } else if isIncoming {
        state := AwaitingYa;
        return ReadNow;
      }
      r := ReadGreeting(w);
    }

    /** The name, its length first; as much is read as is right. */
    method ReadPstr() returns (ok: bool)
      requires HANDSHAKE_NAME_LEN <= |inbuf| && (encryption == PLAINTEXT || encryption == CRYPTO)
      modifies `inbuf, `decryptPos
      ensures ok <==> HANDSHAKE_NAME <= old(Clear())
      ensures ok ==> Clear() == old(Clear())[HANDSHAKE_NAME_LEN..] && inbuf == old(inbuf)[HANDSHAKE_NAME_LEN..]
      ensures Suffix(inbuf, old(inbuf))
    {
      ghost var all := Clear();
      var pstrlen := ReadBytes(1);
      if pstrlen != HANDSHAKE_NAME[..1] {
        assert all[0] == pstrlen[0];
        return false;
      }
      var pstr := ReadBytes(19);
      assert all[..HANDSHAKE_NAME_LEN] == pstrlen + pstr && HANDSHAKE_NAME == HANDSHAKE_NAME[..1] + HANDSHAKE_NAME[1..];
      assert pstr == all[1..20];
      ok := pstr == HANDSHAKE_NAME[1..];
    }

    /** The reserved bytes, and the torrent's hash. */
    method ReadHash() returns (hash: seq<Byte>)
      requires 28 <= |inbuf| && (encryption == PLAINTEXT || encryption == CRYPTO)
      modifies `inbuf, `decryptPos
      ensures |hash| == SHA_DIGEST_LENGTH && hash == old(Clear())[8..28]
      ensures Clear() == old(Clear())[28..] && inbuf == old(inbuf)[28..]
    {
      var reserved := ReadBytes(8);
      hash := ReadBytes(SHA_DIGEST_LENGTH);
    }

    /** The part after the first byte has been looked at; decrypting that byte and reading it is reading one byte. */
    method ReadGreeting(w: World) returns (r: ReadState)
      requires Valid() && Alive() && state == AwaitingHandshake && |inbuf| >= INCOMING_HANDSHAKE_LEN
      requires Recognised()
      modifies this
      ensures Handled(r) && encryption == old(encryption)
      ensures Alive() <==> old(Greets(Clear(), w))
      ensures Alive() ==>
                && state == AwaitingPeerId && inbuf == old(inbuf)[INCOMING_HANDSHAKE_LEN..]
                && torrentHash.Some? && torrentHash.value == old(Clear())[28..48]
    {
      var ok := ReadPstr();
      if !ok {
        r := Done(false, w.callbackOk);
        return;
      }
      var hash: Digest := ReadHash();
      assert hash == old(Clear())[28..48];
      if torrentHash.None? {
        if !w.isKnown(hash) {
          r := Done(false, w.callbackOk);
          return;
        }
        torrentHash := Some(hash);
      } else if hash != torrentHash.value {
        r := Done(false, w.callbackOk);
        return;
      }
      haveSentBitTorrentHandshake := true;
      state := AwaitingPeerId;
      return ReadNow;
    }

    /** readPeerId() */
    method ReadPeerId(w: World) returns (r: ReadState)
      requires Valid() && Alive() && state == AwaitingPeerId
      modifies this
      ensures Handled(r)
      ensures |old(inbuf)| >= PEER_ID_LEN ==> done == [old(Clear())[..PEER_ID_LEN] != w.ownId(old(torrentHash).value)]
    {
      if |inbuf| < PEER_ID_LEN {
        return ReadLater;
      }
      var id := ReadBytes(PEER_ID_LEN);
      havePeerID := true;
      r := Done(id != w.ownId(torrentHash.value), w.callbackOk);
    }

    /** readYa() */
    method ReadYa() returns (r: ReadState)
      requires Valid() && Alive() && state == AwaitingYa
      modifies this
      ensures Handled(r)
      ensures |old(inbuf)| >= KEY_LEN ==>
                Alive() && state == AwaitingPadA && peerKey == old(inbuf)[..KEY_LEN] && inbuf == old(inbuf)[KEY_LEN..]
    {
      if |inbuf| < KEY_LEN {
        return ReadLater;
      }
      peerKey, inbuf := inbuf[..KEY_LEN], inbuf[KEY_LEN..];
      state := AwaitingPadA;
      return ReadNow;
    }

    /** readPadA(): looks for a hash in the bytes there are. */
    method ReadPadA() returns (r: ReadState)
      requires Valid() && Alive() && state == AwaitingPadA
      modifies this
      ensures Handled(r) && peerKey == old(peerKey)
      ensures r == ReadNow <==> Search(old(inbuf), Shared().req1) >= 0
      ensures r == ReadNow ==> state == AwaitingCryptoProvide && inbuf == old(inbuf)[Search(old(inbuf), Shared().req1)..]
      ensures r != ReadNow ==> inbuf == Kept(old(inbuf), SHA_DIGEST_LENGTH)
    {
      var at := Search(inbuf, Shared().req1);
      if at >= 0 {
        inbuf := inbuf[at..];
        state := AwaitingCryptoProvide;
        return ReadNow;
      }
      if |inbuf| > SHA_DIGEST_LENGTH {
        inbuf := inbuf[|inbuf| - SHA_DIGEST_LENGTH..];
      }
      return ReadLater;
    }

    /** readCryptoProvide(): the verification constant is read, but not looked at. */
    method ReadCryptoProvide(w: World) returns (r: ReadState)
      requires Valid() && Alive() && state == AwaitingCryptoProvide
      modifies this
      ensures Handled(r)
      ensures |old(inbuf)| >= 2 * SHA_DIGEST_LENGTH + VC_LENGTH + 6 ==>
                var tor := w.findFromObfuscated(Xor(old(inbuf)[SHA_DIGEST_LENGTH..2 * SHA_DIGEST_LENGTH], old(Shared()).req3));
                var fields := Decrypted(old(inbuf)[2 * SHA_DIGEST_LENGTH..], old(Shared()).stream, 0);
                && (Alive() <==> tor.Some? && !w.bothAreSeeds(tor.value))
                && (Alive() ==> state == AwaitingPadC && torrentHash == tor
                                && cryptoProvide == Number32(fields[VC_LENGTH..VC_LENGTH + 4])
                                && padCLen == Number16(fields[VC_LENGTH + 4..VC_LENGTH + 6])
                                && decryptPos == VC_LENGTH + 6
                                && inbuf == old(inbuf)[2 * SHA_DIGEST_LENGTH + VC_LENGTH + 6..])
    {
      if |inbuf| < 2 * SHA_DIGEST_LENGTH + VC_LENGTH + 6 {
        return ReadLater;
      }
      var tor := FindTorrent(w);
      if tor.None? || w.bothAreSeeds(tor.value) {
        r := Done(false, w.callbackOk);
        return;
      }
      torrentHash := tor;
      decryptPos := 0;
      ReadOffer();
      state := AwaitingPadC;
      return ReadNow;
    }

    /** The torrent the peer means, by its hash under a mask. */
    method FindTorrent(w: World) returns (tor: Option<Digest>)
      requires 2 * SHA_DIGEST_LENGTH <= |inbuf|
      modifies `inbuf
      ensures inbuf == old(inbuf)[2 * SHA_DIGEST_LENGTH..]
      ensures tor == w.findFromObfuscated(Xor(old(inbuf)[SHA_DIGEST_LENGTH..2 * SHA_DIGEST_LENGTH], Shared().req3))
    {
      var req2 := inbuf[SHA_DIGEST_LENGTH..2 * SHA_DIGEST_LENGTH];
      inbuf := inbuf[2 * SHA_DIGEST_LENGTH..];
      tor := w.findFromObfuscated(Xor(req2, Shared().req3));
    }

    /** What comes after the torrent: the constant, the kinds of encryption offered, and the length of the padding. */
    method ReadOffer()
      requires VC_LENGTH + 6 <= |inbuf| && encryption == CRYPTO
      modifies `inbuf, `decryptPos, `cryptoProvide, `padCLen
      ensures cryptoProvide == Number32(old(Clear())[VC_LENGTH..VC_LENGTH + 4])
      ensures padCLen == Number16(old(Clear())[VC_LENGTH + 4..VC_LENGTH + 6])
      ensures decryptPos == old(decryptPos) + VC_LENGTH + 6 && inbuf == old(inbuf)[VC_LENGTH + 6..]
    {
      ghost var all := Clear();
      var vc := ReadBytes(VC_LENGTH);
      cryptoProvide := ReadUint32();
      assert all[VC_LENGTH..][..4] == all[VC_LENGTH..VC_LENGTH + 4];
      padCLen := ReadUint16();
      assert all[VC_LENGTH..][4..][..2] == all[VC_LENGTH + 4..VC_LENGTH + 6];
    }

    /** readPadC() */
    method ReadPadC() returns (r: ReadState)
      requires Valid() && Alive() && state == AwaitingPadC
      modifies this
      ensures Handled(r)
      ensures |old(inbuf)| >= old(padCLen) + 2 ==>
                && Alive() && state == AwaitingIa && cryptoProvide == old(cryptoProvide)
                && iaLen == Number16(old(Clear()[padCLen..padCLen + 2])) && inbuf == old(inbuf)[old(padCLen) + 2..]
    {
      if |inbuf| < padCLen + 2 {
        return ReadLater;
      }
      var pad := ReadBytes(padCLen);
      assert Clear()[..2] == old(Clear()[padCLen..padCLen + 2]);
      iaLen := ReadUint16();
      state := AwaitingIa;
      return ReadNow;
    }

    /** readIA(): what is in the peer's first message is left for the next state. */
    method ReadIa(w: World) returns (r: ReadState)
      requires Valid() && Alive() && state == AwaitingIa
      modifies this
      ensures Handled(r)
      ensures |old(inbuf)| >= old(iaLen) ==>
                (Alive() <==> exists c :: c in Choices(mode) && HasBit(old(cryptoProvide), c))
                && (Alive() ==> state == AwaitingPayloadStream && inbuf == old(inbuf) && torrentHash == old(torrentHash))
    {
      if |inbuf| < iaLen {
        return ReadLater;
      }
      var select := GetCryptoSelect(mode, cryptoProvide);
      if select == 0 {
        r := Done(false, w.callbackOk);
        return;
      }
      if select == PLAINTEXT {
        encryption := PLAINTEXT;
      }
      haveSentBitTorrentHandshake := true;
      state := AwaitingPayloadStream;
      return ReadNow;
    }

    /** A whole handshake that parseHandshake() takes. */
    predicate Parses(bytes: seq<Byte>, w: World)
      requires |bytes| >= HANDSHAKE_SIZE
      reads this
    {
      && HANDSHAKE_NAME <= bytes
      && var hash: Digest := bytes[28..48];
      w.isKnown(hash) && torrentHash == Some(hash) && bytes[48..68] != w.ownId(hash)
    }

    /** readPayloadStream() */
    method ReadPayloadStream(w: World) returns (r: ReadState)
      requires Valid() && Alive() && state == AwaitingPayloadStream
      modifies this
      ensures Handled(r)
      ensures |old(inbuf)| >= HANDSHAKE_SIZE ==> done == [old(Parses(Clear(), w))]
    {
      if |inbuf| < HANDSHAKE_SIZE {
        return ReadLater;
      }
      var ok := ParseHandshake(w);
      r := Done(ok, w.callbackOk);
    }

    /** parseHandshake() */
    method ParseHandshake(w: World) returns (ok: bool)
      requires HANDSHAKE_SIZE <= |inbuf| && (encryption == PLAINTEXT || encryption == CRYPTO)
      modifies `inbuf, `decryptPos, `havePeerID
      ensures ok <==> old(Parses(Clear(), w))
      ensures ok ==> havePeerID
      ensures Suffix(inbuf, old(inbuf))
    {
      ghost var all := Clear();
      var name := ReadBytes(HANDSHAKE_NAME_LEN);
      assert HANDSHAKE_NAME <= all <==> name == HANDSHAKE_NAME;
      if name != HANDSHAKE_NAME {
        return false;
      }
      var hash: Digest := ReadHash();
      assert hash == all[28..48] && Clear() == all[48..];
      if !w.isKnown(hash) || Some(hash) != torrentHash {
        return false;
      }
      var id := ReadBytes(PEER_ID_LEN);
      assert id == all[48..68];
      havePeerID := true;
      ok := id != w.ownId(hash);
    }

    /** One turn of the loop in canRead(). */
    method Turn(w: World) returns (r: ReadState)
      requires Valid() && Alive()
      modifies this
      ensures Handled(r)
    {
      match state
      case AwaitingHandshake => r := ReadHandshake(w);
      case AwaitingPeerId => r := ReadPeerId(w);
      case AwaitingYa => r := ReadYa();
      case AwaitingPadA => r := ReadPadA();
      case AwaitingCryptoProvide => r := ReadCryptoProvide(w);
      case AwaitingPadC => r := ReadPadC();
      case AwaitingIa => r := ReadIa(w);
      case AwaitingPayloadStream => r := ReadPayloadStream(w);
      case AwaitingYb => r := ReadYb();
      case AwaitingVc => r := ReadVc();
      case AwaitingCryptoSelect => r := ReadCryptoSelect(w);
      case AwaitingPadD => r := ReadPadD();
    }

    /**
     * canRead(): it ends, because every turn that asks for another one has
     * moved on to a later state, and it never looks at a handshake that has
     * been freed. It goes on for as long as there are bytes to go on with,
     * except that it always stops when it has read the peer's key.
     */
    method CanRead(worlds: State -> World) returns (r: ReadState)
      requires Valid() && Alive()
      modifies this
      ensures Valid() && (r == ReadErr ==> !Alive())
      ensures Alive() ==> Starved() || (old(state) == AwaitingYb && state == AwaitingVc)
    {
      var readyForMore := true;
      r := ReadLater;
      while readyForMore
        invariant Valid() && (readyForMore ==> Alive()) && (r == ReadErr ==> !Alive())
        invariant readyForMore && state == AwaitingYb ==> old(state) == AwaitingYb
        invariant !readyForMore && Alive() ==> Starved() || (old(state) == AwaitingYb && state == AwaitingVc)
        decreases if readyForMore then 12 - Rank(state) else 0
      {
        r := Turn(worlds(state));
        if r != ReadNow {
          readyForMore := false;
        } else if state == AwaitingPadC {
          readyForMore := |inbuf| >= padCLen;
        } else if state == AwaitingPadD {
          readyForMore := |inbuf| >= padDLen;
        } else if state == AwaitingIa {
          readyForMore := |inbuf| >= iaLen;
        }
      }
    }

    /** Bytes arrive while the handshake listens. */
    method Receive(data: seq<Byte>)
      requires Valid() && Alive()
      modifies `inbuf
      ensures Valid() && Alive() && inbuf == old(inbuf) + data
    {
      inbuf := inbuf + data;
    }

    /**
     * gotError(), with how the attempts to reconnect came out: plaintext is
     * tried after an error before or after our key was answered, unless
     * encryption is required. A handshake over uTP that reconnected is given
     * up all the same: its state is no longer one of those two.
     */
    method GotError(overUtp: bool, firstReconnects: bool, secondReconnects: bool, callbackOk: bool)
      requires Valid() && Alive()
      modifies this
      ensures Valid()
      ensures Alive() <==>
                && mode != EncryptionRequired && secondReconnects
                && (old(state) == AwaitingVc || (old(state) == AwaitingYb && !(overUtp && firstReconnects)))
      ensures if Alive() then state == AwaitingHandshake && haveSentBitTorrentHandshake else done == [false]
    {
      if overUtp && !isIncoming && state == AwaitingYb {
        if firstReconnects {
          haveSentBitTorrentHandshake := true;
          state := AwaitingHandshake;
        }
      }
      if (state == AwaitingYb || state == AwaitingVc) && mode != EncryptionRequired && secondReconnects {
        haveSentBitTorrentHandshake := true;
        state := AwaitingHandshake;
      } else {
        var r := Done(false, callbackOk);
      }
    }

    /** tr_handshakeAbort(), also what the timer calls */
    method Abort(callbackOk: bool)
      requires Valid() && Alive()
      modifies this
      ensures Valid() && done == [false]
    {
      var r := Done(false, callbackOk);
    }

    /**
     * A whole life: one call of the callback at most, no step after it, and
     * when the timer has fired there has been one.
     */
    method Live(events: seq<Happening>)
      requires Valid() && Alive()
      modifies this
      ensures Valid() && |done| <= 1
      ensures Alive() ==> forall e :: e in events ==> !e.Timeout?
      ensures done == [true] && mode == EncryptionRequired ==> encryption == CRYPTO
    {
      var i := 0;
      while i < |events| && Alive()
        invariant i <= |events| && Valid()
        invariant Alive() ==> forall k :: 0 <= k < i ==> !events[k].Timeout?
        decreases |events| - i
      {
        match events[i] {
          case Bytes(data, worlds) =>
            Receive(data);
            var r := CanRead(worlds);
          case Error(overUtp, first, second, callbackOk) =>
            GotError(overUtp, first, second, callbackOk);
          case Timeout(callbackOk) =>
            Abort(callbackOk);
        }
        i := i + 1;
      }
    }
  }
}
