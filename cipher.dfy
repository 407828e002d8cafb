/**
 * encryption.go: the one-time-pad XOR cipher, PKCS #7 padding to the AES
 * block (section 6.3 of RFC 5652), and AES in CBC mode (section 6.2 of NIST
 * SP 800-38A) with the IV written in front of the ciphertext.
 *
 * The AES block function of FIPS 197 is not modelled; it is a parameter, a
 * keyed map on 16-byte blocks together with its inverse.
 */
module Cipher {
  import opened Wrappers
  import opened Bytes

  /** `aes.BlockSize`. */
  const BlockSize: nat := 16

  type Block = b: seq<byte> | |b| == BlockSize witness seq(16, _ => 0 as byte)

  /** An AES-like block cipher: a keyed map on blocks and the map that undoes it. */
  datatype BlockCipher = BlockCipher(encrypt: (seq<byte>, Block) -> Block, decrypt: (seq<byte>, Block) -> Block)

  /** `decrypt` undoes `encrypt` under every key, as AES's inverse cipher does. */
  ghost predicate IsPermutation(c: BlockCipher)
  {
    forall key: seq<byte>, b: Block :: c.decrypt(key, c.encrypt(key, b)) == b
  }

  /** The key lengths `aes.NewCipher` accepts: AES-128, AES-192 and AES-256. */
  predicate ValidKeySize(n: nat)
  {
    n == 16 || n == 24 || n == 32
  }

  /** The errors of `encryptAES` and `decryptAES`. */
  datatype CipherError =
    | KeySizeError(size: nat)   // aes.KeySizeError from aes.NewCipher
    | ShortCiphertext           // "ciphertext too short"
    | RandomSourceFailure       // io.ReadFull(rand.Reader, iv) failed
    | RuntimePanic              // the Go code panics: CryptBlocks on partial blocks, or a bad index or slice bound

  /** Byte-wise XOR of `message` with the first `|message|` bytes of `key`. */
  function Xor(message: seq<byte>, key: seq<byte>): (r: seq<byte>)
    requires |key| >= |message|
    ensures |r| == |message|
  {
    seq(|message|, i requires 0 <= i < |message| => message[i] ^ key[i])
  }

  /** XOR with the same key twice gives the message back. */
  lemma XorSelfInverse(message: seq<byte>, key: seq<byte>)
    requires |key| >= |message|
    ensures Xor(Xor(message, key), key) == message
  {
    var once := Xor(message, key);
    var twice := Xor(once, key);
    forall i | 0 <= i < |message|
      ensures twice[i] == message[i]
    {
      assert twice[i] == (message[i] ^ key[i]) ^ key[i];
    }
  }

  /**
   * `encryptXOR(message, key)`: writes `message[i] ^ key[i]` into a freshly
   * allocated slice of the message's length. The key must be at least as long.
   */
  method EncryptXOR(message: seq<byte>, key: seq<byte>) returns (ciphertext: seq<byte>)
    requires |key| >= |message|
    ensures ciphertext == Xor(message, key)
  {
    var out := new byte[|message|];
    for i := 0 to |message|
      invariant forall j :: 0 <= j < i ==> out[j] == message[j] ^ key[j]
    {
      out[i] := message[i] ^ key[i];
    }
    ciphertext := out[..];
  }

  /** `aes.BlockSize - len(p) % aes.BlockSize`: how many pad bytes `encryptAES` adds. */
  function PadLength(n: nat): (k: nat)
    ensures 1 <= k <= BlockSize
    ensures (n + k) % BlockSize == 0
  {
    BlockSize - n % BlockSize
  }

  /** `plaintext` followed by `PadLength(|plaintext|)` bytes, each equal to that count. */
  function Pad(plaintext: seq<byte>): (padded: seq<byte>)
    ensures |padded| % BlockSize == 0
    ensures |plaintext| < |padded| <= |plaintext| + BlockSize
    ensures padded[..|plaintext|] == plaintext
    ensures forall i :: |plaintext| <= i < |padded| ==> padded[i] as int == |padded| - |plaintext|
  {
    var k := PadLength(|plaintext|);
    plaintext + seq(k, _ => k as byte)
  }

  /**
   * The padding removal of `decryptAES`: the last byte is read as a count and
   * that many bytes are cut from the end, whatever the other bytes hold.
   */
  function Unpad(data: seq<byte>): (plaintext: seq<byte>)
    requires data != [] && data[|data| - 1] as int <= |data|
    ensures plaintext <= data
    ensures |plaintext| == |data| - data[|data| - 1] as int
  {
    data[..|data| - data[|data| - 1] as int]
  }

  /** Removing the padding undoes adding it. */
  lemma UnpadPad(plaintext: seq<byte>)
    ensures var padded := Pad(plaintext);
      padded != [] && padded[|padded| - 1] as int <= |padded| && Unpad(padded) == plaintext
  {
    var padded := Pad(plaintext);
    assert padded[|padded| - 1] as int == |padded| - |plaintext|;
  }

  /**
   * Only the last byte is read: two blocks that end in the same count and
   * agree before the padding unpad alike, whatever the other pad bytes hold.
   */
  lemma UnpadReadsOnlyLastByte(d1: seq<byte>, d2: seq<byte>)
    requires |d1| == |d2| && d1 != [] && d1[|d1| - 1] == d2[|d2| - 1]
    requires d1[|d1| - 1] as int <= |d1|
    requires d1[..|d1| - d1[|d1| - 1] as int] == d2[..|d2| - d2[|d2| - 1] as int]
    ensures Unpad(d1) == Unpad(d2)
  {
  }

  /** For instance, the pad bytes 9 and 2 of `[7, 3, 9, 2]` are not checked against the count 2. */
  lemma UnpadInconsistentPad()
    ensures Unpad([7, 3, 9, 2]) == [7, 3]
  {
    var d: seq<byte> := [7, 3, 9, 2];
    assert d[..2] == [7, 3];
  }

  /** CBC encryption (`CryptBlocks` of `cipher.NewCBCEncrypter`) of whole blocks, chained from `iv`. */
  function CbcEncrypt(c: BlockCipher, key: seq<byte>, iv: Block, data: seq<byte>): (out: seq<byte>)
    requires |data| % BlockSize == 0
    ensures |out| == |data|
    decreases |data|
  {
    if |data| == 0 then []
    else
      var x := c.encrypt(key, Xor(data[..BlockSize], iv));
      x + CbcEncrypt(c, key, x, data[BlockSize..])
  }

  /** CBC decryption (`CryptBlocks` of `cipher.NewCBCDecrypter`) of whole blocks, chained from `iv`. */
  function CbcDecrypt(c: BlockCipher, key: seq<byte>, iv: Block, data: seq<byte>): (out: seq<byte>)
    requires |data| % BlockSize == 0
    ensures |out| == |data|
    decreases |data|
  {
    if |data| == 0 then []
    else
      var x: Block := data[..BlockSize];
      Xor(c.decrypt(key, x), iv) + CbcDecrypt(c, key, x, data[BlockSize..])
  }

  /** CBC decryption undoes CBC encryption under the same key and IV. */
  lemma {:induction false} CbcRoundTrip(c: BlockCipher, key: seq<byte>, iv: Block, data: seq<byte>)
    requires IsPermutation(c)
    requires |data| % BlockSize == 0
    ensures CbcDecrypt(c, key, iv, CbcEncrypt(c, key, iv, data)) == data
    decreases |data|
  {
    if |data| != 0 {
      var first := Xor(data[..BlockSize], iv);
      var x := c.encrypt(key, first);
      var out := CbcEncrypt(c, key, iv, data);
      assert out[..BlockSize] == x;
      assert out[BlockSize..] == CbcEncrypt(c, key, x, data[BlockSize..]);
      XorSelfInverse(data[..BlockSize], iv);
      CbcRoundTrip(c, key, x, data[BlockSize..]);
      assert data[..BlockSize] + data[BlockSize..] == data;
    }
  }

  /**
   * `encryptAES(key, plaintext)`: checks the key size, pads, reads a random IV
   * (`iv` is what the random source delivered, `None` when it failed) and
   * returns the IV followed by the CBC encryption of the padded text.
   */
  function EncryptAES(c: BlockCipher, key: seq<byte>, plaintext: seq<byte>, iv: Option<seq<byte>>): (r: Result<seq<byte>, CipherError>)
    requires iv.Some? ==> |iv.value| == BlockSize
    ensures r.Ok? <==> ValidKeySize(|key|) && iv.Some?
    ensures !ValidKeySize(|key|) ==> r == Err(KeySizeError(|key|))
    ensures r.Ok? ==> |r.value| == BlockSize + |Pad(plaintext)| && r.value[..BlockSize] == iv.value
  {
    if !ValidKeySize(|key|) then Err(KeySizeError(|key|))
    else if iv.None? then Err(RandomSourceFailure)
    else
      var padded := Pad(plaintext);
      Ok(iv.value + CbcEncrypt(c, key, iv.value, padded))
  }

  /**
   * `decryptAES(key, ciphertext)`: rejects input shorter than one block, then an
   * invalid key; splits off the IV, CBC-decrypts the rest and removes the
   * padding. The three inputs on which the Go code panics give `RuntimePanic`.
   */
  function DecryptAES(c: BlockCipher, key: seq<byte>, ciphertext: seq<byte>): (r: Result<seq<byte>, CipherError>)
    ensures |ciphertext| < BlockSize ==> r == Err(ShortCiphertext)
    ensures |ciphertext| >= BlockSize && !ValidKeySize(|key|) ==> r == Err(KeySizeError(|key|))
    ensures ValidKeySize(|key|) && |ciphertext| == BlockSize ==> r == Err(RuntimePanic)
    ensures ValidKeySize(|key|) && |ciphertext| % BlockSize != 0 ==> r.Err?
    ensures r.Ok? ==> |r.value| <= |ciphertext| - BlockSize
  {
    if |ciphertext| < BlockSize then Err(ShortCiphertext)
    else if !ValidKeySize(|key|) then Err(KeySizeError(|key|))
    else
      var iv: Block := ciphertext[..BlockSize];
      var data := ciphertext[BlockSize..];
      if |data| % BlockSize != 0 then Err(RuntimePanic)
      else
        var plain := CbcDecrypt(c, key, iv, data);
        if |plain| == 0 || plain[|plain| - 1] as int > |plain| then Err(RuntimePanic)
        else Ok(Unpad(plain))
  }

  /**
   * Past the error checks, `decryptAES` CBC-decrypts the data after the IV and
   * unpads it by its last byte alone, panicking only when that count exceeds
   * the data; no other pad byte is checked.
   */
  lemma DecryptAESValue(c: BlockCipher, key: seq<byte>, ciphertext: seq<byte>)
    requires ValidKeySize(|key|) && |ciphertext| > BlockSize && |ciphertext| % BlockSize == 0
    ensures var iv: Block := ciphertext[..BlockSize];
            var plain := CbcDecrypt(c, key, iv, ciphertext[BlockSize..]);
            DecryptAES(c, key, ciphertext) == if plain[|plain| - 1] as int > |plain| then Err(RuntimePanic) else Ok(Unpad(plain))
  {
  }

  /** What `encryptAES` produces, `decryptAES` turns back into the plaintext, for every IV and every plaintext. */
  lemma AesRoundTrip(c: BlockCipher, key: seq<byte>, plaintext: seq<byte>, iv: Block)
    requires IsPermutation(c)
    requires ValidKeySize(|key|)
    ensures EncryptAES(c, key, plaintext, Some(iv)).Ok?
    ensures DecryptAES(c, key, EncryptAES(c, key, plaintext, Some(iv)).value) == Ok(plaintext)
  {
    var padded := Pad(plaintext);
    var ct := EncryptAES(c, key, plaintext, Some(iv)).value;
    assert ct[..BlockSize] == iv;
    assert ct[BlockSize..] == CbcEncrypt(c, key, iv, padded);
    CbcRoundTrip(c, key, iv, padded);
    UnpadPad(plaintext);
  }
}
