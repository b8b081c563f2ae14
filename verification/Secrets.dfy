/**
 Endpoint secrets at rest: PKCS#7 padding (section 6.3 of RFC 5652), cipher block
 chaining, and the envelope shared with Laravel's `Crypt::encryptString`. The
 block cipher, the MAC, base64 and JSON are arguments with stated assumptions.
 */
module Secrets {
  import opened Wrappers
  import opened Text

  type Bytes = seq<Byte>

  const BLOCK: int := 16
  const KEY_SIZE: int := 32

  // --------------------------------------------------------------- padding

  function PaddingFor(length: nat, blockSize: int): (p: int)
    requires blockSize > 0
    ensures 1 <= p <= blockSize
  {
    blockSize - length % blockSize
  }

  /** Every padding byte holds the padding length, cut to a byte. */
  function Pad(value: Bytes, blockSize: int): Bytes
    requires blockSize > 0
  {
    var padding := PaddingFor(|value|, blockSize);
    value + seq(padding, _ => (padding % 256) as Byte)
  }

  function Unpad(value: Bytes, blockSize: int): Option<Bytes>
    requires blockSize > 0
  {
    if value == [] || |value| % blockSize != 0 then None
    else
      var padding: int := value[|value| - 1];
      if padding < 1 || padding > blockSize || padding > |value| then None
      else if exists i :: |value| - padding <= i < |value| && value[i] != padding then None
      else Some(value[..|value| - padding])
  }

  method PadBuffer(value: Bytes, blockSize: int) returns (buffer: array<Byte>)
    requires blockSize > 0
    ensures buffer[..] == Pad(value, blockSize)
  {
    var padding := blockSize - |value| % blockSize;
    buffer := new Byte[|value| + padding](i requires 0 <= i < |value| + padding => if i < |value| then value[i] else 0);
    for index := |value| to buffer.Length
      invariant forall i :: 0 <= i < |value| ==> buffer[i] == value[i]
      invariant forall i :: |value| <= i < index ==> buffer[i] == padding % 256
    {
      buffer[index] := padding % 256;
    }
  }

  method UnpadBuffer(value: Bytes, blockSize: int) returns (r: Option<Bytes>)
    requires blockSize > 0
    ensures r == Unpad(value, blockSize)
  {
    if |value| == 0 || |value| % blockSize != 0 {
      return None;
    }
    var padding: int := value[|value| - 1];
    if padding < 1 || padding > blockSize || padding > |value| {
      return None;
    }
    for i := |value| - padding to |value|
      invariant forall k :: |value| - padding <= k < i ==> value[k] == padding
    {
      if value[i] != padding {
        return None;
      }
    }
    return Some(value[..|value| - padding]);
  }

  lemma PaddedLength(length: nat, blockSize: int)
    requires blockSize > 0
    ensures (length + PaddingFor(length, blockSize)) % blockSize == 0
  {
    var q, r := length / blockSize, length % blockSize;
    assert length + PaddingFor(length, blockSize) == (q + 1) * blockSize;
    Multiple(q + 1, blockSize);
  }

  lemma Multiple(q: nat, b: int)
    requires b > 0
    ensures (q * b) % b == 0
  {
    Remainder(q, b, 0);
  }

  lemma NoMultipleBetween(m: int, b: int)
    requires b > 0 && -b < m * b < b
    ensures m == 0
  {
    assert m >= 1 ==> m * b >= 1 * b;
    assert m <= -1 ==> m * b <= -1 * b;
  }

  lemma Remainder(q: nat, b: int, r: int)
    requires b > 0 && 0 <= r < b
    ensures (q * b + r) % b == r
  {
    var x := q * b + r;
    var d := x / b;
    assert x == d * b + x % b;
    assert (q - d) * b == q * b - d * b;
    NoMultipleBetween(q - d, b);
  }

  /** The padding of what remains after removing `padding` bytes from whole blocks is `padding` again. */
  lemma PaddingRecovered(length: nat, padding: int, blockSize: int)
    requires blockSize > 0 && length % blockSize == 0 && 1 <= padding <= blockSize && padding <= length
    ensures PaddingFor(length - padding, blockSize) == padding
  {
    var q := length / blockSize;
    assert length == q * blockSize;
    assert q >= 1;
    if padding == blockSize {
      assert length - padding == (q - 1) * blockSize;
      Multiple(q - 1, blockSize);
    } else {
      Remainder(q - 1, blockSize, blockSize - padding);
      assert length - padding == (q - 1) * blockSize + (blockSize - padding);
    }
  }

  /**
   Unpadding undoes padding exactly when the padding length fits a byte, as it does for every block size up to
   255.
   */
  lemma PadRoundTrip(value: Bytes, blockSize: int)
    requires blockSize > 0
    ensures Unpad(Pad(value, blockSize), blockSize) == Some(value) <==> PaddingFor(|value|, blockSize) <= 255
  {
    var padding, padded := PaddingFor(|value|, blockSize), Pad(value, blockSize);
    PaddedLength(|value|, blockSize);
    if padding <= 255 {
      assert padded[..|value|] == value;
    } else {
      var r := Unpad(padded, blockSize);
      if r.Some? {
        assert |r.value| == |padded| - padding % 256;
      }
    }
  }

  /** Whatever unpads, pads back to itself. */
  lemma UnpadRoundTrip(value: Bytes, blockSize: int)
    requires blockSize > 0 && Unpad(value, blockSize).Some?
    ensures Pad(Unpad(value, blockSize).value, blockSize) == value
  {
    var padding: int := value[|value| - 1];
    PaddingRecovered(|value|, padding, blockSize);
  }

  // ---------------------------------------------------------- block chaining

  function Pow2(k: nat): (r: nat)
    ensures r > 0
  {
    if k == 0 then 1 else 2 * Pow2(k - 1)
  }

  /** Exclusive or of two `k`-bit numbers. */
  function XorBits(a: nat, b: nat, k: nat): (r: nat)
    requires a < Pow2(k) && b < Pow2(k)
    ensures r < Pow2(k)
  {
    if k == 0 then 0 else (a % 2 + b % 2) % 2 + 2 * XorBits(a / 2, b / 2, k - 1)
  }

  lemma XorLow(a: nat, b: nat, k: nat)
    requires k > 0 && a < Pow2(k) && b < Pow2(k)
    ensures XorBits(a, b, k) % 2 == (a % 2 + b % 2) % 2
    ensures XorBits(a, b, k) / 2 == XorBits(a / 2, b / 2, k - 1)
  {}

  lemma {:induction false} XorInvolutive(a: nat, b: nat, k: nat)
    requires a < Pow2(k) && b < Pow2(k)
    ensures XorBits(XorBits(a, b, k), b, k) == a
  {
    if k > 0 {
      var x := XorBits(a, b, k);
      XorLow(a, b, k);
      XorLow(x, b, k);
      XorInvolutive(a / 2, b / 2, k - 1);
      TwiceIsNothing(a, b);
      SameHalves(XorBits(x, b, k), a);
    }
  }

  lemma TwiceIsNothing(a: nat, b: nat)
    ensures ((a % 2 + b % 2) % 2 + b % 2) % 2 == a % 2
  {}

  lemma SameHalves(a: nat, b: nat)
    requires a % 2 == b % 2 && a / 2 == b / 2
    ensures a == b
  {}

  lemma ByteRange()
    ensures Pow2(8) == 256
  {
    assert Pow2(4) == 16;
  }

  function Xor(a: Bytes, b: Bytes): (r: Bytes)
    requires |a| == |b|
    ensures |r| == |a|
  {
    ByteRange();
    seq(|a|, i requires 0 <= i < |a| => XorBits(a[i], b[i], 8) as Byte)
  }

  lemma XorBack(a: Bytes, b: Bytes)
    requires |a| == |b|
    ensures Xor(Xor(a, b), b) == a
  {
    ByteRange();
    forall i | 0 <= i < |a| ensures Xor(Xor(a, b), b)[i] == a[i] {
      XorInvolutive(a[i], b[i], 8);
    }
  }

  datatype Cipher = Cipher(seal: Bytes -> Bytes, open: Bytes -> Bytes)

  /** A permutation of blocks and its inverse. */
  ghost predicate BlockCipher(c: Cipher) {
    && (forall x :: |x| == BLOCK ==> |c.seal(x)| == BLOCK && c.open(c.seal(x)) == x)
    && (forall x :: |x| == BLOCK ==> |c.open(x)| == BLOCK && c.seal(c.open(x)) == x)
  }

  lemma WholeBlocks(n: nat)
    requires n > 0 && n % BLOCK == 0
    ensures n >= BLOCK && (n - BLOCK) % BLOCK == 0
  {}

  ghost function CbcEncrypt(c: Cipher, iv: Bytes, plain: Bytes): (r: Bytes)
    requires BlockCipher(c) && |iv| == BLOCK && |plain| % BLOCK == 0
    ensures |r| == |plain|
    decreases |plain|
  {
    if plain == [] then []
    else
      WholeBlocks(|plain|);
      var block := c.seal(Xor(plain[..BLOCK], iv));
      block + CbcEncrypt(c, block, plain[BLOCK..])
  }

  ghost function CbcDecrypt(c: Cipher, iv: Bytes, text: Bytes): (r: Bytes)
    requires BlockCipher(c) && |iv| == BLOCK && |text| % BLOCK == 0
    ensures |r| == |text|
    decreases |text|
  {
    if text == [] then []
    else
      WholeBlocks(|text|);
      Xor(c.open(text[..BLOCK]), iv) + CbcDecrypt(c, text[..BLOCK], text[BLOCK..])
  }

  lemma EncryptStep(c: Cipher, iv: Bytes, head: Bytes, rest: Bytes)
    requires BlockCipher(c) && |iv| == |head| == BLOCK && |rest| % BLOCK == 0
    ensures |c.seal(Xor(head, iv))| == BLOCK
    ensures CbcEncrypt(c, iv, head + rest) == c.seal(Xor(head, iv)) + CbcEncrypt(c, c.seal(Xor(head, iv)), rest)
  {
    assert (head + rest)[..BLOCK] == head && (head + rest)[BLOCK..] == rest;
  }

  lemma DecryptStep(c: Cipher, iv: Bytes, head: Bytes, rest: Bytes)
    requires BlockCipher(c) && |iv| == |head| == BLOCK && |rest| % BLOCK == 0
    ensures |c.open(head)| == BLOCK
    ensures CbcDecrypt(c, iv, head + rest) == Xor(c.open(head), iv) + CbcDecrypt(c, head, rest)
  {
    assert (head + rest)[..BLOCK] == head && (head + rest)[BLOCK..] == rest;
  }

  lemma {:induction false} CbcOpens(c: Cipher, iv: Bytes, plain: Bytes)
    requires BlockCipher(c) && |iv| == BLOCK && |plain| % BLOCK == 0
    ensures CbcDecrypt(c, iv, CbcEncrypt(c, iv, plain)) == plain
    decreases |plain|
  {
    if plain != [] {
      WholeBlocks(|plain|);
      var head, rest := plain[..BLOCK], plain[BLOCK..];
      assert plain == head + rest;
      EncryptStep(c, iv, head, rest);
      var block := c.seal(Xor(head, iv));
      DecryptStep(c, iv, block, CbcEncrypt(c, block, rest));
      XorBack(head, iv);
      CbcOpens(c, block, rest);
    }
  }

  lemma {:induction false} CbcSeals(c: Cipher, iv: Bytes, text: Bytes)
    requires BlockCipher(c) && |iv| == BLOCK && |text| % BLOCK == 0
    ensures CbcEncrypt(c, iv, CbcDecrypt(c, iv, text)) == text
    decreases |text|
  {
    if text != [] {
      WholeBlocks(|text|);
      var head, rest := text[..BLOCK], text[BLOCK..];
      assert text == head + rest;
      DecryptStep(c, iv, head, rest);
      XorBack(c.open(head), iv);
      EncryptStep(c, iv, Xor(c.open(head), iv), CbcDecrypt(c, head, rest));
      CbcSeals(c, head, rest);
    }
  }

  // -------------------------------------------------------------- envelope

  datatype Payload = Payload(iv: string, value: string, mac: string, tag: string)

  /** The pieces the envelope is built from. */
  datatype Suite = Suite(
    cipher: Bytes -> Cipher,
    mac: (Bytes, string) -> Bytes,
    base64: Bytes -> string,
    unbase64: string -> Option<Bytes>,
    json: Payload -> Bytes,
    unjson: Bytes -> Option<Payload>)

  ghost predicate Sound(s: Suite) {
    && (forall key :: |key| == KEY_SIZE ==> BlockCipher(s.cipher(key)))
    && (forall b :: s.unbase64(s.base64(b)) == Some(b))
    && (forall p :: s.unjson(s.json(p)) == Some(p))
  }

  datatype Error = InvalidApplicationKey | InvalidCiphertext

  ghost function Encrypt(s: Suite, key: Bytes, plaintext: Bytes, iv: Bytes): Result<string, Error>
    requires Sound(s) && |iv| == BLOCK
  {
    if |key| != KEY_SIZE then Failure(InvalidApplicationKey)
    else
      Success(Envelope(s, key, iv, Sealed(s, key, plaintext, iv)))
  }

  /** Vector and ciphertext with the authentication code of their encoded forms. */
  function Envelope(s: Suite, key: Bytes, iv: Bytes, text: Bytes): string {
    var encodedIv, encodedValue := s.base64(iv), s.base64(text);
    var payload := Payload(encodedIv, encodedValue, Hex(s.mac(key, encodedIv + encodedValue)), "");
    s.base64(s.json(payload))
  }

  /** The vector and ciphertext of an envelope that passes every check before decryption. */
  function Opened(s: Suite, key: Bytes, envelope: string): Option<(Bytes, Bytes)> {
    var json := s.unbase64(envelope);
    if json.None? || s.unjson(json.value).None? then None
    else
      var payload := s.unjson(json.value).value;
      var iv, text, mac := s.unbase64(payload.iv), s.unbase64(payload.value), Unhex(payload.mac);
      if iv.None? || |iv.value| != BLOCK then None
      else if text.None? || text.value == [] || |text.value| % BLOCK != 0 then None
      else if mac.None? || mac.value != s.mac(key, payload.iv + payload.value) then None
      else Some((iv.value, text.value))
  }

  ghost function Decrypt(s: Suite, key: Bytes, envelope: string): Result<Bytes, Error>
    requires Sound(s)
  {
    if |key| != KEY_SIZE then Failure(InvalidApplicationKey)
    else
      var parts := Opened(s, key, envelope);
      if parts.None? then Failure(InvalidCiphertext)
      else
        var plain := Unpad(CbcDecrypt(s.cipher(key), parts.value.0, parts.value.1), BLOCK);
        if plain.None? then Failure(InvalidCiphertext) else Success(plain.value)
  }

  /** The ciphertext an encryption stores. */
  ghost function Sealed(s: Suite, key: Bytes, plaintext: Bytes, iv: Bytes): Bytes
    requires Sound(s) && |iv| == BLOCK && |key| == KEY_SIZE
  {
    PaddedLength(|plaintext|, BLOCK);
    CbcEncrypt(s.cipher(key), iv, Pad(plaintext, BLOCK))
  }

  lemma SealedOpens(s: Suite, key: Bytes, plaintext: Bytes, iv: Bytes)
    requires Sound(s) && |iv| == BLOCK && |key| == KEY_SIZE
    ensures Encrypt(s, key, plaintext, iv).Success?
    ensures Opened(s, key, Encrypt(s, key, plaintext, iv).value) == Some((iv, Sealed(s, key, plaintext, iv)))
  {
    PaddedLength(|plaintext|, BLOCK);
    EnvelopeOpens(s, key, iv, Sealed(s, key, plaintext, iv));
  }

  lemma EnvelopeOpens(s: Suite, key: Bytes, iv: Bytes, text: Bytes)
    requires Sound(s) && |iv| == BLOCK && text != [] && |text| % BLOCK == 0
    ensures Opened(s, key, Envelope(s, key, iv, text)) == Some((iv, text))
  {
    HexRoundTrip(s.mac(key, s.base64(iv) + s.base64(text)));
  }

  lemma SealedUnpads(s: Suite, key: Bytes, plaintext: Bytes, iv: Bytes)
    requires Sound(s) && |iv| == BLOCK && |key| == KEY_SIZE
    ensures Sealed(s, key, plaintext, iv) != [] && |Sealed(s, key, plaintext, iv)| % BLOCK == 0
    ensures Unpad(CbcDecrypt(s.cipher(key), iv, Sealed(s, key, plaintext, iv)), BLOCK) == Some(plaintext)
  {
    PaddedLength(|plaintext|, BLOCK);
    CbcOpens(s.cipher(key), iv, Pad(plaintext, BLOCK));
    PadRoundTrip(plaintext, BLOCK);
  }

  lemma EnvelopeDecrypts(s: Suite, key: Bytes, plaintext: Bytes, iv: Bytes, text: Bytes)
    requires Sound(s) && |iv| == BLOCK && |key| == KEY_SIZE && text != [] && |text| % BLOCK == 0
    requires Unpad(CbcDecrypt(s.cipher(key), iv, text), BLOCK) == Some(plaintext)
    ensures Decrypt(s, key, Envelope(s, key, iv, text)) == Success(plaintext)
  {
    EnvelopeOpens(s, key, iv, text);
  }

  /** Decrypting an encrypted string under the same key returns it, whatever the vector. */
  lemma EnvelopeRoundTrip(s: Suite, key: Bytes, plaintext: Bytes, iv: Bytes)
    requires Sound(s) && |iv| == BLOCK
    ensures Encrypt(s, key, plaintext, iv).Success? <==> |key| == KEY_SIZE
    ensures |key| == KEY_SIZE ==> Decrypt(s, key, Encrypt(s, key, plaintext, iv).value) == Success(plaintext)
  {
    if |key| == KEY_SIZE {
      SealedUnpads(s, key, plaintext, iv);
      EnvelopeDecrypts(s, key, plaintext, iv, Sealed(s, key, plaintext, iv));
    }
  }

  /** Whatever decrypts is exactly what encrypting its plaintext with the same key and vector would store. */
  lemma DecryptedWasEncrypted(s: Suite, key: Bytes, envelope: string)
    requires Sound(s)
    ensures Decrypt(s, key, envelope).Success? ==>
              var plaintext, parts := Decrypt(s, key, envelope).value, Opened(s, key, envelope).value;
              && Encrypt(s, key, plaintext, parts.0).Success?
              && Opened(s, key, Encrypt(s, key, plaintext, parts.0).value) == Some(parts)
  {
    if Decrypt(s, key, envelope).Success? {
      var (iv, text) := Opened(s, key, envelope).value;
      var plain := CbcDecrypt(s.cipher(key), iv, text);
      UnpadRoundTrip(plain, BLOCK);
      CbcSeals(s.cipher(key), iv, text);
      SealedOpens(s, key, Decrypt(s, key, envelope).value, iv);
    }
  }

  // ------------------------------------------------------- padding, exactly

  /** Padding fills up whole blocks, always adds something, and every added byte says how many there are. */
  lemma PadMeans(value: Bytes, blockSize: int)
    requires 0 < blockSize <= 255
    ensures var padded := Pad(value, blockSize);
            && |padded| % blockSize == 0 && |value| < |padded| <= |value| + blockSize
            && value <= padded
            && forall i :: |value| <= i < |padded| ==> padded[i] == |padded| - |value|
  {
    PaddedLength(|value|, blockSize);
  }

  /** A buffer unpads to a value exactly when it is that value padded. */
  lemma UnpadExact(padded: Bytes, value: Bytes, blockSize: int)
    requires 0 < blockSize <= 255
    ensures Unpad(padded, blockSize) == Some(value) <==> padded == Pad(value, blockSize)
  {
    PadRoundTrip(value, blockSize);
    if Unpad(padded, blockSize) == Some(value) {
      UnpadRoundTrip(padded, blockSize);
    }
  }

  // ------------------------------------------------------- chaining, exactly

  /** The `i`-th bit. */
  predicate Bit(x: nat, i: nat) {
    if i == 0 then x % 2 == 1 else Bit(x / 2, i - 1)
  }

  lemma {:induction false} XorBit(a: nat, b: nat, k: nat, i: nat)
    requires a < Pow2(k) && b < Pow2(k) && i < k
    ensures Bit(XorBits(a, b, k), i) <==> Bit(a, i) != Bit(b, i)
  {
    XorLow(a, b, k);
    if i > 0 {
      XorBit(a / 2, b / 2, k - 1, i - 1);
    }
  }

  /** The `k`-th block of a buffer. */
  function Block(b: Bytes, k: nat): (r: Bytes)
    requires 16 * (k + 1) <= |b|
    ensures |r| == 16
  {
    b[16 * k..16 * (k + 1)]
  }

  lemma BlockAfter(head: Bytes, rest: Bytes, k: nat)
    requires |head| == 16 && 16 * (k + 1) <= |rest|
    ensures Block(head + rest, k + 1) == Block(rest, k)
  {}

  lemma FirstBlock(head: Bytes, rest: Bytes)
    requires |head| == 16
    ensures Block(head + rest, 0) == head
  {}

  /** The `k`-th ciphertext block is the cipher of its plaintext block combined with the one before, or the vector. */
  ghost predicate Chained(c: Cipher, iv: Bytes, plain: Bytes, text: Bytes, k: nat)
    requires |iv| == 16 && 16 * (k + 1) <= |plain| == |text|
  {
    Block(text, k) == c.seal(Xor(Block(plain, k), if k == 0 then iv else Block(text, k - 1)))
  }

  lemma ChainLonger(c: Cipher, iv: Bytes, head: Bytes, rest: Bytes, first: Bytes, tail: Bytes, k: nat)
    requires |iv| == |head| == |first| == 16 && 16 * (k + 1) <= |rest| == |tail|
    requires Chained(c, first, rest, tail, k)
    ensures Chained(c, iv, head + rest, first + tail, k + 1)
  {
    BlockAfter(head, rest, k);
    BlockAfter(first, tail, k);
    if k == 0 {
      FirstBlock(first, tail);
    } else {
      BlockAfter(first, tail, k - 1);
    }
  }

  lemma ChainFirst(c: Cipher, iv: Bytes, head: Bytes, rest: Bytes, first: Bytes, tail: Bytes)
    requires |iv| == |head| == |first| == 16 && first == c.seal(Xor(head, iv)) && |rest| == |tail|
    ensures Chained(c, iv, head + rest, first + tail, 0)
  {
    FirstBlock(head, rest);
    FirstBlock(first, tail);
  }

  /** `text` is `plain` enciphered block by block, each combined with the block before it. */
  ghost predicate IsChain(c: Cipher, iv: Bytes, plain: Bytes, text: Bytes)
    requires |iv| == 16
    decreases |plain|
  {
    && |plain| == |text|
    && (|plain| >= 16 ==>
          && text[..16] == c.seal(Xor(plain[..16], iv))
          && IsChain(c, text[..16], plain[16..], text[16..]))
  }

  lemma {:induction false} EncryptChains(c: Cipher, iv: Bytes, plain: Bytes)
    requires BlockCipher(c) && |iv| == BLOCK && |plain| % BLOCK == 0
    ensures IsChain(c, iv, plain, CbcEncrypt(c, iv, plain))
    decreases |plain|
  {
    if plain != [] {
      WholeBlocks(|plain|);
      var head, rest := plain[..BLOCK], plain[BLOCK..];
      var first := c.seal(Xor(head, iv));
      EncryptChains(c, first, rest);
      var text := CbcEncrypt(c, iv, plain);
      assert text[..16] == first && text[16..] == CbcEncrypt(c, first, rest);
    }
  }

  lemma {:induction false} ChainedAt(c: Cipher, iv: Bytes, plain: Bytes, text: Bytes, k: nat)
    requires |iv| == 16 && IsChain(c, iv, plain, text) && 16 * (k + 1) <= |plain|
    ensures Chained(c, iv, plain, text, k)
    decreases k
  {
    var head, rest, first, tail := plain[..16], plain[16..], text[..16], text[16..];
    assert plain == head + rest && text == first + tail;
    if k == 0 {
      ChainFirst(c, iv, head, rest, first, tail);
    } else {
      ChainedAt(c, first, rest, tail, k - 1);
      ChainLonger(c, iv, head, rest, first, tail, k - 1);
    }
  }

  /** Encryption chains every block to the one before it and the first to the vector. */
  lemma ChainExact(c: Cipher, iv: Bytes, plain: Bytes, k: nat)
    requires BlockCipher(c) && |iv| == BLOCK && |plain| % BLOCK == 0 && 16 * (k + 1) <= |plain|
    ensures Chained(c, iv, plain, CbcEncrypt(c, iv, plain), k)
  {
    EncryptChains(c, iv, plain);
    ChainedAt(c, iv, plain, CbcEncrypt(c, iv, plain), k);
  }

  // ------------------------------------------------------ decryption, exactly

  /** The envelope carries this payload, vector and ciphertext, with the code of its own encoded parts under the key. */
  ghost predicate Authentic(s: Suite, key: Bytes, envelope: string, p: Payload, iv: Bytes, text: Bytes) {
    && s.unbase64(envelope).Some? && s.unjson(s.unbase64(envelope).value) == Some(p)
    && s.unbase64(p.iv) == Some(iv) && |iv| == 16
    && s.unbase64(p.value) == Some(text) && |text| > 0 && |text| % 16 == 0
    && Unhex(p.mac) == Some(s.mac(key, p.iv + p.value))
  }

  /** An envelope decrypts to a plaintext exactly when it is authentic under a 32-byte key and holds it padded. */
  lemma DecryptExact(s: Suite, key: Bytes, envelope: string, plaintext: Bytes)
    requires Sound(s)
    ensures Decrypt(s, key, envelope) == Success(plaintext) <==>
              && |key| == 32
              && exists p, iv, text :: Authentic(s, key, envelope, p, iv, text)
                                       && CbcDecrypt(s.cipher(key), iv, text) == Pad(plaintext, 16)
  {
    if |key| == 32 {
      OpenedExact(s, key, envelope);
      var parts := Opened(s, key, envelope);
      if parts.Some? {
        UnpadExact(CbcDecrypt(s.cipher(key), parts.value.0, parts.value.1), plaintext, 16);
      }
    }
  }

  lemma OpenedExact(s: Suite, key: Bytes, envelope: string)
    ensures forall p, iv, text :: Authentic(s, key, envelope, p, iv, text) ==>
              Opened(s, key, envelope) == Some((iv, text))
    ensures var parts := Opened(s, key, envelope);
            parts.Some? ==> exists p :: Authentic(s, key, envelope, p, parts.value.0, parts.value.1)
  {
    var parts := Opened(s, key, envelope);
    if parts.Some? {
      var p := s.unjson(s.unbase64(envelope).value).value;
      assert Authentic(s, key, envelope, p, parts.value.0, parts.value.1);
    }
  }
}
