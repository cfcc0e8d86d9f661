/** BRBIP38Key.c: keys encrypted with a passphrase, without EC multiplication. */
module Bip38 {
  import opened Base58
  import opened Words
  import Aes256

  type Secret = s: seq<bv8> | |s| == 32 witness seq(32, _ => 0)
  type Derived = s: seq<bv8> | |s| == 64 witness seq(64, _ => 0)

  /**
   * The code this module calls but does not look into: the double SHA-256, scrypt with its fixed work
   * factors, and the text of the address of a key, which is empty for a secret without a public key.
   */
  datatype Primitives = Primitives(
    sha2: seq<byte> -> Digest,
    scrypt: (string, seq<byte>) -> Derived,
    address: (Secret, bool) -> seq<byte>)

  const BIP38_NOEC_PREFIX: nat := 0x0142
  const BIP38_NOEC_FLAG: bv8 := 0x80 | 0x40
  const BIP38_COMPRESSED_FLAG: bv8 := 0x20

  // Bytes as numbers and as bit vectors

  function ToByte(b: bv8): byte {
    b as nat
  }

  function ToBits(b: byte): bv8 {
    b as bv8
  }

  function ToBytes(s: seq<bv8>): (t: seq<byte>)
    ensures |t| == |s|
  {
    seq(|s|, i requires 0 <= i < |s| => ToByte(s[i]))
  }

  function FromBytes(s: seq<byte>): (t: seq<bv8>)
    ensures |t| == |s|
  {
    seq(|s|, i requires 0 <= i < |s| => ToBits(s[i]))
  }

  lemma BitsOfByte(b: bv8)
    ensures ToBits(ToByte(b)) == b
  {
  }

  lemma FromToBytes(s: seq<bv8>)
    ensures FromBytes(ToBytes(s)) == s
  {
    hide ToByte;
    hide ToBits;
    forall i | 0 <= i < |s|
      ensures ToBits(ToByte(s[i])) == s[i]
    {
      BitsOfByte(s[i]);
    }
  }

  // Masking

  function Xored(s: seq<bv8>, t: seq<bv8>): (x: seq<bv8>)
    requires |s| == |t|
    ensures |x| == |s|
  {
    seq(|s|, i requires 0 <= i < |s| => s[i] ^ t[i])
  }

  lemma XorTwice(a: bv8, b: bv8)
    ensures (a ^ b) ^ b == a
  {
  }

  lemma XoredTwice(s: seq<bv8>, t: seq<bv8>)
    requires |s| == |t|
    ensures Xored(Xored(s, t), t) == s
  {
    forall i | 0 <= i < |s|
      ensures (s[i] ^ t[i]) ^ t[i] == s[i]
    {
      XorTwice(s[i], t[i]);
    }
  }

  // The layout: prefix, flag, address hash, and the two encrypted halves of the secret

  function Flag(compressed: bool): bv8 {
    if compressed then BIP38_NOEC_FLAG | BIP38_COMPRESSED_FLAG else BIP38_NOEC_FLAG
  }

  /** The first four bytes of the hash of the address, which salt the passphrase. */
  function AddressHash(p: Primitives, secret: Secret, compressed: bool): (h: seq<byte>)
    ensures |h| == 4
  {
    p.sha2(p.address(secret, compressed))[..4]
  }

  /** Half of the secret, masked with the derived key and encrypted under its other half. */
  function Sealed(half: seq<bv8>, mask: seq<bv8>, key: seq<bv8>): (c: seq<bv8>)
    requires |half| == |mask| == 16 && |key| == 32
    ensures |c| == 16
  {
    hide Aes256.Encrypted;
    Aes256.Encrypted(key, Xored(half, mask))
  }

  function Opened(c: seq<bv8>, mask: seq<bv8>, key: seq<bv8>): (half: seq<bv8>)
    requires |c| == |mask| == 16 && |key| == 32
    ensures |half| == 16
  {
    hide Aes256.Decrypted;
    Xored(Aes256.Decrypted(key, c), mask)
  }

  lemma OpenSealed(half: seq<bv8>, mask: seq<bv8>, key: seq<bv8>)
    requires |half| == |mask| == 16 && |key| == 32
    ensures Opened(Sealed(half, mask, key), mask, key) == half
  {
    hide Aes256.Encrypted;
    hide Aes256.Decrypted;
    hide Xored;
    Aes256.DecryptedEncrypted(key, Xored(half, mask));
    XoredTwice(half, mask);
  }

  function Payload(p: Primitives, secret: Secret, compressed: bool, passphrase: string): (data: seq<byte>)
    ensures |data| == 39
  {
    hide Sealed;
    hide ToByte;
    var salt := AddressHash(p, secret, compressed);
    var d := p.scrypt(passphrase, salt);
    [BIP38_NOEC_PREFIX / 0x100, BIP38_NOEC_PREFIX % 0x100, ToByte(Flag(compressed))] + salt
    + ToBytes(Sealed(secret[..16], d[..16], d[32..])) + ToBytes(Sealed(secret[16..], d[16..32], d[32..]))
  }

  /** The 39 bytes: 01 42, e0 or c0, the address hash, and the halves of the secret, masked and encrypted under the last 32 derived bytes. */
  lemma PayloadIs(p: Primitives, secret: Secret, compressed: bool, passphrase: string, salt: seq<byte>, d: Derived,
      low: seq<bv8>, high: seq<bv8>)
    requires salt == p.sha2(p.address(secret, compressed))[..4] && d == p.scrypt(passphrase, salt)
    requires |low| == |high| == 16
    requires forall i :: 0 <= i < 16 ==> low[i] == secret[i] ^ d[i] && high[i] == secret[16 + i] ^ d[16 + i]
    ensures var data := Payload(p, secret, compressed, passphrase);
            && data[..3] == [0x01, 0x42, if compressed then 0xe0 else 0xc0] && data[3..7] == salt
            && FromBytes(data[7..23]) == Aes256.Encrypted(d[32..], low) && FromBytes(data[23..]) == Aes256.Encrypted(d[32..], high)
  {
    hide Aes256.Encrypted;
    hide FromBytes;
    hide ToBytes;
    hide Flag;
    hide ToByte;
    var data := Payload(p, secret, compressed, passphrase);
    var c, c' := Sealed(secret[..16], d[..16], d[32..]), Sealed(secret[16..], d[16..32], d[32..]);
    FlagIs(compressed);
    FromToBytes(c);
    FromToBytes(c');
    assert data[7..23] == ToBytes(c) && data[23..] == ToBytes(c');
    assert Xored(secret[..16], d[..16]) == low && Xored(secret[16..], d[16..32]) == high;
  }

  lemma FlagIs(compressed: bool)
    ensures ToByte(Flag(compressed)) == if compressed then 0xe0 else 0xc0
  {
    assert Flag(true) == 0xe0 && Flag(false) == 0xc0;
  }

  function Prefix(data: seq<byte>): nat
    requires |data| == 39
  {
    var high: nat, low: nat := data[0], data[1];
    high * 0x100 + low
  }

  /** The secret a payload holds, whether or not the passphrase was the right one. */
  function Unlocked(p: Primitives, data: seq<byte>, passphrase: string): Secret
    requires |data| == 39
  {
    hide Opened;
    hide FromBytes;
    var d := p.scrypt(passphrase, data[3..7]);
    Opened(FromBytes(data[7..23]), d[..16], d[32..]) + Opened(FromBytes(data[23..]), d[16..32], d[32..])
  }

  function Compressed(data: seq<byte>): bool
    requires |data| == 39
  {
    ToBits(data[2]) & BIP38_COMPRESSED_FLAG != 0
  }

  lemma FlagKeepsCompression(compressed: bool)
    ensures ToBits(ToByte(Flag(compressed))) & BIP38_COMPRESSED_FLAG != 0 <==> compressed
  {
    hide ToByte;
    hide ToBits;
    BitsOfByte(Flag(compressed));
  }

  /** A payload gives back, under its own passphrase, the secret, the flag and the hash it was made from. */
  lemma UnlockPayload(p: Primitives, secret: Secret, compressed: bool, passphrase: string)
    ensures var data := Payload(p, secret, compressed, passphrase);
            && Prefix(data) == BIP38_NOEC_PREFIX
            && Unlocked(p, data, passphrase) == secret
            && Compressed(data) == compressed
            && data[3..7] == AddressHash(p, secret, compressed)
  {
    hide Sealed;
    hide Opened;
    hide Flag;
    hide ToByte;
    hide ToBits;
    hide ToBytes;
    hide FromBytes;
    hide AddressHash;
    var data := Payload(p, secret, compressed, passphrase);
    var salt := AddressHash(p, secret, compressed);
    var d := p.scrypt(passphrase, salt);
    var low, high := Sealed(secret[..16], d[..16], d[32..]), Sealed(secret[16..], d[16..32], d[32..]);
    assert data[3..7] == salt;
    assert data[7..23] == ToBytes(low);
    assert data[23..] == ToBytes(high);
    FromToBytes(low);
    FromToBytes(high);
    OpenSealed(secret[..16], d[..16], d[32..]);
    OpenSealed(secret[16..], d[16..32], d[32..]);
    assert secret == secret[..16] + secret[16..];
    FlagKeepsCompression(compressed);
  }

  function LockedText(p: Primitives, secret: Secret, compressed: bool, passphrase: string): string {
    CheckText(p.sha2, Payload(p, secret, compressed, passphrase))
  }

  /** What BRKeySetBIP38Key reports for a payload: whether the key it holds has the address it names. */
  function Matches(p: Primitives, secret: Secret, data: seq<byte>): bool
    requires |data| == 39
  {
    p.address(secret, Compressed(data)) != [] && AddressHash(p, secret, Compressed(data)) == data[3..7]
  }

  /** Decoding the text of a key that has an address, with the same passphrase, gives the key back and reports success. */
  lemma UnlockLockedText(p: Primitives, secret: Secret, compressed: bool, passphrase: string)
    requires p.address(secret, compressed) != []
    ensures var data := CheckBytes(p.sha2, LockedText(p, secret, compressed, passphrase));
            && |data| == 39 && Prefix(data) == BIP38_NOEC_PREFIX
            && Unlocked(p, data, passphrase) == secret && Compressed(data) == compressed
            && Matches(p, secret, data)
  {
    hide Payload;
    hide Unlocked;
    hide Compressed;
    hide CheckText;
    hide CheckBytes;
    hide AddressHash;
    CheckDecodeEncoded(p.sha2, Payload(p, secret, compressed, passphrase));
    UnlockPayload(p, secret, compressed, passphrase);
  }

  /** The length announced for a null buffer is enough for every key. */
  lemma AnnouncedLengthSuffices(p: Primitives, secret: Secret, compressed: bool, passphrase: string)
    ensures |LockedText(p, secret, compressed, passphrase)| + 1 <= 43 * 138 / 100 + 2
  {
    hide Payload;
    hide Text;
    var data := Payload(p, secret, compressed, passphrase);
    TextFits(data + p.sha2(data)[..4]);
  }

  class BRKey {
    var secret: Secret
    var compressed: int

    constructor (secret: Secret, compressed: int)
      ensures this.secret == secret && this.compressed == compressed
    {
      this.secret := secret;
      this.compressed := compressed;
    }

    /** BRKeyBIP38Key */
    method Bip38Key(p: Primitives, str: array?<char>, passphrase: string) returns (len: nat)
      modifies if str == null then {} else {str}
      ensures str == null ==> len == 43 * 138 / 100 + 2
      ensures str != null ==>
                var text := LockedText(p, secret, compressed != 0, passphrase);
                && len == (if |text| + 1 <= str.Length then |text| + 1 else 0)
                && if len == 0 then str[..] == old(str[..]) else Written(str[..], text + ['\0'], old(str[..]))
    {
      hide CheckText;
      hide ToByte;
      hide Xored;
      hide Aes256.Encrypted;
      if str == null {
        return 43 * 138 / 100 + 2;
      }
      var flag := BIP38_NOEC_FLAG;
      if compressed != 0 {
        flag := flag | BIP38_COMPRESSED_FLAG;
      }
      var hash := p.sha2(p.address(secret, compressed != 0));
      var salt := hash[..4];
      var derived := p.scrypt(passphrase, salt);
      var derived1, derived2 := derived[..32], derived[32..];
      assert derived1[..16] == derived[..16] && derived1[16..] == derived[16..32];
      var encrypted1 := SealHalf(secret[..16], derived1[..16], derived2);
      var encrypted2 := SealHalf(secret[16..], derived1[16..], derived2);
      var buf := [BIP38_NOEC_PREFIX / 0x100, BIP38_NOEC_PREFIX % 0x100, ToByte(flag)] + salt
      + ToBytes(encrypted1) + ToBytes(encrypted2);
      assert buf == Payload(p, secret, compressed != 0, passphrase);
      len := CheckEncode(p.sha2, str, buf);
    }

    /** BRKeySetBIP38Key; other stands for the secret that the code gets for any other prefix. */
    method SetBip38Key(p: Primitives, bip38Key: string, passphrase: string, other: Secret) returns (r: bool)
      modifies this
      ensures var data := CheckBytes(p.sha2, bip38Key);
              if |data| != 39 then !r && secret == old(secret) && compressed == old(compressed)
              else
                && secret == (if Prefix(data) == BIP38_NOEC_PREFIX then Unlocked(p, data, passphrase) else other)
                && (compressed != 0 <==> Compressed(data))
                && (r <==> Matches(p, secret, data))
    {
      hide CheckBytes;
      hide ToByte;
      hide ToBits;
      hide FromBytes;
      hide Xored;
      hide Aes256.Decrypted;
      var buf := new byte[39];
      var len := CheckDecode(p.sha2, buf, bip38Key);
      if len != 39 {
        return false;
      }
      var data := buf[..];
      assert data == CheckBytes(p.sha2, bip38Key);
      var addresshash := data[3..7];
      var found := other;
      if Prefix(data) == BIP38_NOEC_PREFIX {
        var derived := p.scrypt(passphrase, addresshash);
        var derived1, derived2 := derived[..32], derived[32..];
        assert derived1[..16] == derived[..16] && derived1[16..] == derived[16..32];
        var low := OpenHalf(FromBytes(data[7..23]), derived1[..16], derived2);
        var high := OpenHalf(FromBytes(data[23..]), derived1[16..], derived2);
        found := low + high;
      }
      secret := found;
      compressed := (ToBits(data[2]) & BIP38_COMPRESSED_FLAG) as int;
      var address := p.address(secret, compressed != 0);
      var hash := p.sha2(address);
      r := address != [] && hash[..4] == addresshash;
    }
  }

  /** Mask half of the secret and encrypt it in place. */
  method SealHalf(half: seq<bv8>, mask: seq<bv8>, key: seq<bv8>) returns (c: seq<bv8>)
    requires |half| == |mask| == 16 && |key| == 32
    ensures c == Sealed(half, mask, key)
  {
    hide Aes256.Encrypted;
    hide Xored;
    var block := Aes256.Copied(Xored(half, mask));
    Aes256.Encrypt(key, block);
    c := block[..];
  }

  /** Decrypt half of the secret in place and unmask it. */
  method OpenHalf(c: seq<bv8>, mask: seq<bv8>, key: seq<bv8>) returns (half: seq<bv8>)
    requires |c| == |mask| == 16 && |key| == 32
    ensures half == Opened(c, mask, key)
  {
    hide Aes256.Decrypted;
    hide Xored;
    var block := Aes256.Copied(c);
    Aes256.Decrypt(key, block);
    half := Xored(block[..], mask);
  }
}
