/**
 ChaCha20-Poly1305 of Modules/core/BRCrypto.c, against section 2.8 of RFC 7539: one key stream block for
 the one-time key, the rest for the data, and a tag over the padded associated data and ciphertext.
 */
module Aead {
  import opened Wrappers
  import opened Words
  import Poly1305
  import ChaCha20

  const UINT32_MAX: nat := 0xffff_ffff

  // ---------- section 2.8 of RFC 7539 ----------

  /** Byte i of the key stream under a 96-bit nonce, from the block with the given 32-bit counter. */
  function StreamByte(key: seq<byte>, nonce: seq<byte>, first: nat, i: nat): byte
    requires |key| == 32 && |nonce| == 12 && first + i / 64 < W32
  {
    ChaCha20.Block(ChaCha20.Rfc7539State(key, first + i / 64, nonce))[i % 64]
  }

  function Encrypted(key: seq<byte>, nonce: seq<byte>, data: seq<byte>): (ct: seq<byte>)
    requires |key| == 32 && |nonce| == 12 && |data| / 64 < UINT32_MAX
    ensures |ct| == |data|
  {
    seq(|data|, i requires 0 <= i < |data| => ChaCha20.Cover(data[i], StreamByte(key, nonce, 1, i)))
  }

  function OneTimeKey(key: seq<byte>, nonce: seq<byte>): (k: seq<byte>)
    requires |key| == 32 && |nonce| == 12
    ensures |k| == 32
  {
    ChaCha20.Block(ChaCha20.Rfc7539State(key, 0, nonce))[..32]
  }

  /** The bytes, padded with zeros to whole blocks of 16. */
  function Padded(s: seq<byte>): (p: seq<byte>)
    ensures |p| % 16 == 0 && s <= p
  {
    if |s| % 16 == 0 then s else s + seq(16 - |s| % 16, _ => 0)
  }

  function MacInput(ad: seq<byte>, ct: seq<byte>): seq<byte> {
    Padded(ad) + Padded(ct) + (LittleEndianBytes(|ad|, 8) + LittleEndianBytes(|ct|, 8))
  }

  function TagFor(key: seq<byte>, nonce: seq<byte>, ad: seq<byte>, ct: seq<byte>): (tag: seq<byte>)
    requires |key| == 32 && |nonce| == 12
    ensures |tag| == 16
  {
    Poly1305.Tag(OneTimeKey(key, nonce), MacInput(ad, ct))
  }

  function Seal(key: seq<byte>, nonce: seq<byte>, data: seq<byte>, ad: seq<byte>): (box: seq<byte>)
    requires |key| == 32 && |nonce| == 12 && |data| / 64 < UINT32_MAX
    ensures |box| == |data| + 16
  {
    var ct := Encrypted(key, nonce, data);
    ct + TagFor(key, nonce, ad, ct)
  }

  /** Byte i of a box is the data under the key stream from block 1 on. */
  lemma SealedByte(key: seq<byte>, nonce: seq<byte>, data: seq<byte>, ad: seq<byte>, i: nat, n: u32)
    requires |key| == 32 && |nonce| == 12 && |data| / 64 < UINT32_MAX && i < |data| && n == 1 + i / 64
    ensures Seal(key, nonce, data, ad)[i] == ChaCha20.Cover(data[i], ChaCha20.Block(ChaCha20.Rfc7539State(key, n, nonce))[i % 64])
  {
    hide Poly1305.Tag;
    hide ChaCha20.Block;
    hide ChaCha20.Rfc7539State;
    hide ChaCha20.Cover;
    hide OneTimeKey;
    hide MacInput;
  }

  /** The tag is over associated data and ciphertext, both padded with zeros, and their lengths, under the first half of block 0. */
  lemma SealedTag(key: seq<byte>, nonce: seq<byte>, data: seq<byte>, ad: seq<byte>)
    requires |key| == 32 && |nonce| == 12 && |data| / 64 < UINT32_MAX
    ensures var n, ct := |data|, Seal(key, nonce, data, ad)[..|data|];
            var input := ad + seq((16 - |ad| % 16) % 16, _ => 0) + ct + seq((16 - n % 16) % 16, _ => 0)
                         + LittleEndianBytes(|ad|, 8) + LittleEndianBytes(n, 8);
            Seal(key, nonce, data, ad)[n..] == Poly1305.Tag(ChaCha20.Block(ChaCha20.Rfc7539State(key, 0, nonce))[..32], input)
  {
    hide Poly1305.Tag;
    hide ChaCha20.Block;
    hide ChaCha20.Rfc7539State;
    hide Encrypted;
    hide LittleEndianBytes;
    hide MacInput;
    var n, ct := |data|, Encrypted(key, nonce, data);
    assert Seal(key, nonce, data, ad)[..n] == ct;
    MacInputIs(ad, ct);
  }

  lemma MacInputIs(ad: seq<byte>, ct: seq<byte>)
    ensures MacInput(ad, ct)
            == ad + seq((16 - |ad| % 16) % 16, _ => 0) + ct + seq((16 - |ct| % 16) % 16, _ => 0)
               + LittleEndianBytes(|ad|, 8) + LittleEndianBytes(|ct|, 8)
  {
    hide Padded;
    hide LittleEndianBytes;
    PaddingIs(ad);
    PaddingIs(ct);
    Regrouped(ad, seq((16 - |ad| % 16) % 16, _ => 0), ct, seq((16 - |ct| % 16) % 16, _ => 0),
              LittleEndianBytes(|ad|, 8), LittleEndianBytes(|ct|, 8));
  }

  lemma Regrouped(a: seq<byte>, b: seq<byte>, c: seq<byte>, d: seq<byte>, e: seq<byte>, f: seq<byte>)
    ensures (a + b) + (c + d) + (e + f) == a + b + c + d + e + f
  {
  }

  lemma PaddingIs(s: seq<byte>)
    ensures Padded(s) == s + seq((16 - |s| % 16) % 16, _ => 0)
  {
  }

  function Open(key: seq<byte>, nonce: seq<byte>, box: seq<byte>, ad: seq<byte>): (data: Option<seq<byte>>)
    requires |key| == 32 && |nonce| == 12
  {
    if |box| < 16 || (|box| - 16) / 64 >= UINT32_MAX then None
    else
      var ct, tag := box[..|box| - 16], box[|box| - 16..];
      if TagFor(key, nonce, ad, ct) == tag then Some(Encrypted(key, nonce, ct)) else None
  }

  lemma DecryptEncrypted(key: seq<byte>, nonce: seq<byte>, data: seq<byte>)
    requires |key| == 32 && |nonce| == 12 && |data| / 64 < UINT32_MAX
    ensures Encrypted(key, nonce, Encrypted(key, nonce, data)) == data
  {
    hide ChaCha20.Block;
    var ct := Encrypted(key, nonce, data);
    forall i | 0 <= i < |data|
      ensures Encrypted(key, nonce, ct)[i] == data[i]
    {
      ChaCha20.UncoverCovered(data[i], StreamByte(key, nonce, 1, i));
    }
  }

  /** What was sealed opens, under the same key, nonce and associated data, to what was put in. */
  lemma OpenSealed(key: seq<byte>, nonce: seq<byte>, data: seq<byte>, ad: seq<byte>)
    requires |key| == 32 && |nonce| == 12 && |data| / 64 < UINT32_MAX
    ensures Open(key, nonce, Seal(key, nonce, data, ad), ad) == Some(data)
  {
    hide Poly1305.Tag;
    hide OneTimeKey;
    hide Encrypted;
    hide MacInput;
    var box := Seal(key, nonce, data, ad);
    assert box[..|box| - 16] == Encrypted(key, nonce, data);
    DecryptEncrypted(key, nonce, data);
  }

  /** Nothing else opens: a box opens to data exactly if it is the one that data is sealed in. */
  lemma OnlySealedOpens(key: seq<byte>, nonce: seq<byte>, data: seq<byte>, box: seq<byte>, ad: seq<byte>)
    requires |key| == 32 && |nonce| == 12
    ensures Open(key, nonce, box, ad) == Some(data) <==> |data| / 64 < UINT32_MAX && box == Seal(key, nonce, data, ad)
  {
    hide Poly1305.Tag;
    hide OneTimeKey;
    hide Encrypted;
    hide MacInput;
    if Open(key, nonce, box, ad) == Some(data) {
      var ct := box[..|box| - 16];
      DecryptEncrypted(key, nonce, ct);
      assert box == ct + box[|ct|..];
    }
    if |data| / 64 < UINT32_MAX && box == Seal(key, nonce, data, ad) {
      OpenSealed(key, nonce, data, ad);
    }
  }

  // ---------- the counter ----------

  /** The 64-bit counter the source starts from: the first nonce word above a zero block count. */
  function StartCounter(nonce: seq<byte>): u64
    requires |nonce| == 12
  {
    LittleEndianBound(nonce[..4]);
    Pow256Words();
    LittleEndian(nonce[..4]) * W32
  }

  /** While the block count stays in its 32 bits, the source's state is that of RFC 7539. */
  lemma CounterStaysInItsWord(key: seq<byte>, nonce: seq<byte>, k: nat)
    requires |key| == 32 && |nonce| == 12 && k < W32
    ensures StartCounter(nonce) + k < W64
    ensures ChaCha20.StateAt(key, nonce[4..], StartCounter(nonce) + k) == ChaCha20.Rfc7539State(key, k, nonce)
  {
    hide ChaCha20.SIGMA;
    var n := LittleEndian(nonce[..4]);
    LittleEndianBound(nonce[..4]);
    Pow256Words();
    assert (n * W32 + k) % W32 == k && (n * W32 + k) / W32 == n;
    assert ChaCha20.WordsOf(nonce) == [n] + ChaCha20.WordsOf(nonce[4..]);
  }

  /** The length guard keeps the source's 64-bit counter equal to the 32-bit one wherever it is used. */
  lemma CoveredIsEncrypted(key: seq<byte>, nonce: seq<byte>, data: seq<byte>)
    requires |key| == 32 && |nonce| == 12 && |data| / 64 < UINT32_MAX
    ensures StartCounter(nonce) + 1 < W64
    ensures ChaCha20.Covered(data, key, nonce[4..], StartCounter(nonce) + 1) == Encrypted(key, nonce, data)
  {
    hide ChaCha20.Block;
    hide ChaCha20.KeyByte;
    hide StreamByte;
    CounterStaysInItsWord(key, nonce, 1);
    forall i | 0 <= i < |data|
      ensures ChaCha20.KeyByte(key, nonce[4..], StartCounter(nonce) + 1, i) == StreamByte(key, nonce, 1, i)
    {
      KeyByteIsStreamByte(key, nonce, 1, i);
    }
  }

  lemma KeyByteIsStreamByte(key: seq<byte>, nonce: seq<byte>, first: nat, i: nat)
    requires |key| == 32 && |nonce| == 12 && first + i / 64 < W32
    ensures StartCounter(nonce) + first < W64
    ensures ChaCha20.KeyByte(key, nonce[4..], StartCounter(nonce) + first, i) == StreamByte(key, nonce, first, i)
  {
    hide ChaCha20.Block;
    hide ChaCha20.StateAt;
    hide ChaCha20.Rfc7539State;
    CounterStaysInItsWord(key, nonce, first);
    CounterStaysInItsWord(key, nonce, first + i / 64);
  }

  // ---------- the code ----------

  /** The pad buffer after the last bytes were copied over its zeros. */
  function LastBlock(s: seq<byte>): (b: seq<byte>)
    requires |s| % 16 != 0
    ensures |b| == 16
  {
    s[|s| / 16 * 16..] + seq(16 - |s| % 16, _ => 0)
  }

  lemma PaddedParts(s: seq<byte>)
    ensures |s| % 16 == 0 ==> s[..|s| / 16 * 16] == Padded(s)
    ensures |s| % 16 != 0 ==> s[..|s| / 16 * 16] + LastBlock(s) == Padded(s)
  {
    assert s == s[..|s| / 16 * 16] + s[|s| / 16 * 16..];
  }

  /** Feeds s to the authenticator in two calls: its whole blocks, then the rest padded with zeros. */
  method AbsorbPadded(h: array<u32>, key: seq<byte>, s: seq<byte>)
    requires h.Length == 5 && |key| == 32 && Poly1305.Loose(Poly1305.LimbsOf(h[..]))
    modifies h
    ensures Poly1305.Loose(Poly1305.LimbsOf(h[..]))
    ensures Poly1305.Value(Poly1305.LimbsOf(h[..])) % Poly1305.P
            == Poly1305.Absorb(Poly1305.Value(Poly1305.LimbsOf(old(h[..]))) % Poly1305.P, Poly1305.ClampedR(key), Padded(s))
  {
    hide Poly1305.Value;
    ghost var acc := Poly1305.Value(Poly1305.LimbsOf(h[..])) % Poly1305.P;
    PaddedParts(s);
    Poly1305.Compress(h, key, s[..|s| / 16 * 16], false);
    if |s| % 16 != 0 {
      Poly1305.Compress(h, key, LastBlock(s), false);
      Poly1305.AbsorbAppend(acc, Poly1305.ClampedR(key), s[..|s| / 16 * 16], LastBlock(s));
    }
  }

  /** The split calls amount to one pass over the padded input. */
  method Authenticate(key: seq<byte>, ad: seq<byte>, ct: seq<byte>) returns (h: array<u32>)
    requires |key| == 32
    ensures fresh(h) && h.Length == 5
    ensures Poly1305.MacBytes(h[..]) == Poly1305.Tag(key, MacInput(ad, ct))
  {
    hide Poly1305.TagOf;
    hide Poly1305.Absorb;
    hide Padded;
    h := new u32[5](_ => 0);
    assert Poly1305.LimbsOf(h[..]) == Poly1305.Limbs(0, 0, 0, 0, 0);
    AbsorbPadded(h, key, ad);
    AbsorbPadded(h, key, ct);
    AbsorbThree(Poly1305.ClampedR(key), Padded(ad), Padded(ct), LittleEndianBytes(|ad|, 8) + LittleEndianBytes(|ct|, 8));
    Poly1305.Compress(h, key, LittleEndianBytes(|ad|, 8) + LittleEndianBytes(|ct|, 8), true);
  }

  lemma AbsorbThree(r: nat, a: seq<byte>, b: seq<byte>, c: seq<byte>)
    requires |a| % 16 == 0 && |b| % 16 == 0
    ensures var acc := Poly1305.Absorb(Poly1305.Absorb(0, r, a), r, b);
            acc < Poly1305.P && Poly1305.Absorb(acc, r, c) == Poly1305.Absorb(0, r, a + b + c)
  {
    hide Poly1305.Absorb;
    Poly1305.AbsorbAppend(0, r, a, b);
    Poly1305.AbsorbAppend(0, r, a + b, c);
    Poly1305.AbsorbReduces(0, r, a + b);
  }

  lemma CoverZero(k: byte)
    ensures ChaCha20.Cover(0, k) == k
  {
  }

  lemma ZerosCovered(key: seq<byte>, nonce: seq<byte>, zeros: seq<byte>)
    requires |key| == 32 && |nonce| == 12 && |zeros| == 32 && forall i :: 0 <= i < 32 ==> zeros[i] == 0
    ensures ChaCha20.Covered(zeros, key, nonce[4..], StartCounter(nonce)) == OneTimeKey(key, nonce)
  {
    hide ChaCha20.Block;
    hide ChaCha20.KeyByte;
    var c := StartCounter(nonce);
    forall i | 0 <= i < 32
      ensures ChaCha20.Covered(zeros, key, nonce[4..], c)[i] == OneTimeKey(key, nonce)[i]
    {
      KeyByteIsStreamByte(key, nonce, 0, i);
      CoverZero(ChaCha20.KeyByte(key, nonce[4..], c, i));
    }
  }

  /** The first 32 bytes of key stream, taken by encrypting zeros in place. */
  method MacKey(key: seq<byte>, nonce: seq<byte>) returns (k: seq<byte>)
    requires |key| == 32 && |nonce| == 12
    ensures k == OneTimeKey(key, nonce)
  {
    hide ChaCha20.Block;
    var macKey := new byte[32](_ => 0);
    ghost var zeros := macKey[..32];
    var counter := StartCounter(nonce);
    ChaCha20.Encrypt(macKey, key, nonce[4..], macKey, 32, counter);
    k := macKey[..];
    assert k == macKey[..32] == ChaCha20.Covered(zeros, key, nonce[4..], counter);
    ZerosCovered(key, nonce, zeros);
  }

  /** BRChacha20Poly1305AEADEncrypt: out may be data itself. */
  method AeadEncrypt(out: array?<byte>, key: seq<byte>, nonce: seq<byte>, data: array<byte>, dataLen: nat, ad: seq<byte>)
    returns (n: nat)
    requires |key| == 32 && |nonce| == 12 && dataLen <= data.Length
    modifies if out == null then {} else {out}
    ensures out == null ==> n == dataLen + 16
    ensures out != null && (out.Length < dataLen + 16 || dataLen / 64 >= UINT32_MAX) ==> n == 0 && out[..] == old(out[..])
    ensures out != null && out.Length >= dataLen + 16 && dataLen / 64 < UINT32_MAX ==>
              n == dataLen + 16 && out[..n] == Seal(key, nonce, old(data[..dataLen]), ad) && out[n..] == old(out[n..])
  {
    hide Encrypted;
    hide OneTimeKey;
    hide MacInput;
    hide Poly1305.Tag;
    hide ChaCha20.Covered;
    if out == null { return dataLen + 16; }
    if out.Length < dataLen + 16 || dataLen / 64 >= UINT32_MAX { return 0; }
    ghost var plain := data[..dataLen];
    var macKey := MacKey(key, nonce);
    CoveredIsEncrypted(key, nonce, plain);
    ChaCha20.Encrypt(out, key, nonce[4..], data, dataLen, StartCounter(nonce) + 1);
    ghost var tail := old(out[dataLen..]);
    assert out[dataLen..] == tail;
    var h := Authenticate(macKey, ad, out[..dataLen]);
    var tag := Poly1305.MacBytes(h[..]);
    WriteTag(out, dataLen, tag);
    assert tail[16..] == old(out[dataLen + 16..]);
    n := dataLen + 16;
  }

  method WriteTag(out: array<byte>, at: nat, tag: seq<byte>)
    requires at + |tag| <= out.Length
    modifies out
    ensures out[..at + |tag|] == old(out[..at]) + tag
    ensures out[at + |tag|..] == old(out[at..])[|tag|..]
  {
    forall i | 0 <= i < |tag| {
      out[at + i] := tag[i];
    }
  }

  /** The comparison of the two tags, word by word and without a branch. */
  predicate TagsDiffer(m: seq<u32>, h: seq<u32>)
    requires |m| == 4 && |h| == 5
  {
    Or(Or(Or(Xor(m[0], h[0]), Xor(m[1], h[1])), Xor(m[2], h[2])), if Xor(m[3], h[3]) != 0 then 1 else 0) != 0
  }

  lemma TagsDifferMeans(m: seq<u32>, h: seq<u32>)
    requires |m| == 4 && |h| == 5
    ensures TagsDiffer(m, h) <==> m != h[..4]
  {
    XorIsZero(m[0], h[0]);
    XorIsZero(m[1], h[1]);
    XorIsZero(m[2], h[2]);
    XorIsZero(m[3], h[3]);
    OrIsZero(Xor(m[0], h[0]), Xor(m[1], h[1]));
    OrIsZero(Or(Xor(m[0], h[0]), Xor(m[1], h[1])), Xor(m[2], h[2]));
    OrIsZero(Or(Or(Xor(m[0], h[0]), Xor(m[1], h[1])), Xor(m[2], h[2])), if Xor(m[3], h[3]) != 0 then 1 else 0);
  }

  lemma MacWords(tag: seq<byte>, h: seq<u32>)
    requires |tag| == 16 && |h| == 5
    ensures [Poly1305.Word(tag, 0), Poly1305.Word(tag, 1), Poly1305.Word(tag, 2), Poly1305.Word(tag, 3)] == h[..4]
            <==> tag == Poly1305.MacBytes(h)
  {
    WordIsBytes(tag, 0, h[0]);
    WordIsBytes(tag, 1, h[1]);
    WordIsBytes(tag, 2, h[2]);
    WordIsBytes(tag, 3, h[3]);
    var b0, b1, b2, b3 := LittleEndianBytes(h[0], 4), LittleEndianBytes(h[1], 4), LittleEndianBytes(h[2], 4), LittleEndianBytes(h[3], 4);
    Poly1305.FourParts(b0, b1, b2, b3);
    assert tag == tag[0..4] + tag[4..8] + tag[8..12] + tag[12..16];
  }

  lemma WordIsBytes(tag: seq<byte>, i: nat, w: u32)
    requires |tag| == 16 && i < 4
    ensures Poly1305.Word(tag, i) == w <==> tag[4 * i..4 * i + 4] == LittleEndianBytes(w, 4)
  {
    Pow256Words();
    NumberOfBytes(w, 4);
    BytesOfNumber(tag[4 * i..4 * i + 4]);
  }

  /** BRChacha20Poly1305AEADDecrypt: a wrong tag yields length 0 and leaves out as it was. */
  method AeadDecrypt(out: array?<byte>, key: seq<byte>, nonce: seq<byte>, data: array<byte>, dataLen: nat, ad: seq<byte>)
    returns (n: nat)
    requires |key| == 32 && |nonce| == 12 && dataLen <= data.Length
    modifies if out == null then {} else {out}
    ensures out == null ==> n == if dataLen < 16 then 0 else dataLen - 16
    ensures out != null && out.Length + 16 < dataLen ==> n == 0 && out[..] == old(out[..])
    ensures out != null && out.Length + 16 >= dataLen ==>
              match Open(key, nonce, old(data[..dataLen]), ad)
              case None => n == 0 && out[..] == old(out[..])
              case Some(plain) => n == |plain| && n <= out.Length && out[..n] == plain && out[n..] == old(out[n..])
  {
    hide Encrypted;
    hide OneTimeKey;
    hide MacInput;
    hide Poly1305.Tag;
    hide ChaCha20.Covered;
    if out == null { return if dataLen < 16 then 0 else dataLen - 16; }
    if dataLen < 16 || (dataLen - 16) / 64 >= UINT32_MAX || out.Length + 16 < dataLen { return 0; }
    n := dataLen - 16;
    ghost var box := data[..dataLen];
    ghost var ct := box[..n];
    assert data[..n] == ct;
    var macKey := MacKey(key, nonce);
    var h := Authenticate(macKey, ad, data[..n]);
    var tag := data[n..dataLen];
    assert tag == box[n..];
    var mac := [Poly1305.Word(tag, 0), Poly1305.Word(tag, 1), Poly1305.Word(tag, 2), Poly1305.Word(tag, 3)];
    TagsDifferMeans(mac, h[..]);
    MacWords(tag, h[..]);
    if TagsDiffer(mac, h[..]) { n := 0; }
    CoveredIsEncrypted(key, nonce, ct);
    ChaCha20.Encrypt(out, key, nonce[4..], data, n, StartCounter(nonce) + 1);
    assert out[0..] == out[..] && old(out[0..]) == old(out[..]);
  }
}
