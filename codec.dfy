/**
 * The codec of the merchant/gateway payload: the hand-written `hextobin` loop, `bin2hex`,
 * and `encrypt`/`decrypt` around an AES-128-CBC cipher with a fixed IV and an MD5-derived
 * key. The cipher and the digest are not modelled; they are the fields of `Crypto`.
 */
module Codec {
  import opened Wrappers
  import opened PhpString

  newtype byte = x: int | 0 <= x < 256

  /** One byte of `pack("H*", ...)`: high nibble first; a character that is no hex digit counts as 0. */
  function PackByte(hi: char, lo: char): byte {
    (16 * HexValue(hi) + HexValue(lo)) as byte
  }

  /**
   * `pack("H*", $h)`: each pair of hex digits becomes one byte, in order; a lone last digit
   * becomes the high nibble of a last byte whose low nibble is 0.
   */
  function PackHex(h: string): (b: seq<byte>)
    ensures |b| == (|h| + 1) / 2
    decreases |h|
  {
    if |h| == 0 then []
    else if |h| == 1 then [PackByte(h[0], '0')]
    else [PackByte(h[0], h[1])] + PackHex(h[2..])
  }

  /** Byte `i` of `pack("H*", $h)` comes from digits `2i` and `2i+1`; a lone last digit is the high nibble. */
  lemma {:induction false} PackHexAt(h: string, i: nat)
    requires i < (|h| + 1) / 2
    ensures 2 * i + 1 < |h| ==> PackHex(h)[i] == PackByte(h[2 * i], h[2 * i + 1])
    ensures 2 * i + 1 == |h| ==> PackHex(h)[i] == PackByte(h[2 * i], '0')
    decreases |h|
  {
    if i > 0 {
      PackHexAt(h[2..], i - 1);
      assert h[2..][2 * (i - 1)] == h[2 * i];
      assert 2 * i + 1 < |h| ==> h[2..][2 * (i - 1) + 1] == h[2 * i + 1];
    }
  }

  /** Packing splits at an even position. */
  lemma {:induction false} PackHexConcat(a: string, b: string)
    requires |a| % 2 == 0
    ensures PackHex(a + b) == PackHex(a) + PackHex(b)
    decreases |a|
  {
    if |a| > 0 {
      PackHexConcat(a[2..], b);
      assert (a + b)[2..] == a[2..] + b;
      assert (a + b)[0] == a[0] && (a + b)[1] == a[1];
      assert PackHex(a + b) == [PackByte(a[0], a[1])] + PackHex(a[2..] + b);
      assert PackHex(a) == [PackByte(a[0], a[1])] + PackHex(a[2..]);
      assert [PackByte(a[0], a[1])] + (PackHex(a[2..]) + PackHex(b))
          == ([PackByte(a[0], a[1])] + PackHex(a[2..])) + PackHex(b);
    } else {
      assert a + b == b;
    }
  }

  /**
   * `hextobin`: walks the hex string two characters at a time, packing each slice and
   * appending it. The loop computes exactly one `pack("H*", ...)` of the whole string.
   */
  method HexToBin(hexString: string) returns (binString: seq<byte>)
    ensures binString == PackHex(hexString)
  {
    var length := |hexString|;
    binString := [];
    var count := 0;
    while count < length
      invariant 0 <= count && count % 2 == 0
      invariant count <= length ==> binString == PackHex(hexString[..count])
      invariant count > length ==> binString == PackHex(hexString)
    {
      var end := if count + 2 <= length then count + 2 else length;
      var subString := hexString[count..end];
      var packedString := PackHex(subString);
      PackHexConcat(hexString[..count], subString);
      assert hexString[..count] + subString == hexString[..end];
      if count == 0 {
        binString := packedString;
      } else {
        binString := binString + packedString;
      }
      assert end == length ==> hexString[..end] == hexString;
      count := count + 2;
    }
    assert count == length ==> hexString[..count] == hexString;
  }

  /** `bin2hex`: two lower-case hex digits per byte. */
  function Bin2Hex(b: seq<byte>): (h: string)
    ensures |h| == 2 * |b|
    ensures forall i :: 0 <= i < |h| ==> IsHexDigit(h[i]) && !('A' <= h[i] <= 'Z')
  {
    if |b| == 0 then ""
    else [LowerHexDigit(b[0] as int / 16), LowerHexDigit(b[0] as int % 16)] + Bin2Hex(b[1..])
  }

  /** `hextobin(bin2hex($b)) === $b`: what lets `decrypt` read what `encrypt` wrote. */
  lemma {:induction false} PackHexBin2Hex(b: seq<byte>)
    ensures PackHex(Bin2Hex(b)) == b
  {
    if |b| > 0 {
      PackHexBin2Hex(b[1..]);
      var h := Bin2Hex(b);
      assert h[2..] == Bin2Hex(b[1..]);
      assert 16 * (b[0] as int / 16) + b[0] as int % 16 == b[0] as int;
      assert b == [b[0]] + b[1..];
    }
  }

  /** Lower-case hex digits only: the strings `bin2hex` produces. */
  predicate LowerHex(h: string) {
    forall i :: 0 <= i < |h| ==> IsHexDigit(h[i]) && !('A' <= h[i] <= 'Z')
  }

  lemma LowerHexDigitOf(c: char)
    requires IsHexDigit(c) && !('A' <= c <= 'Z')
    ensures LowerHexDigit(HexValue(c)) == c
  {
  }

  /** The other direction: an even-length lower-case hex string survives `bin2hex(hextobin($h))`. */
  lemma {:induction false} Bin2HexPackHex(h: string)
    requires |h| % 2 == 0 && LowerHex(h)
    ensures Bin2Hex(PackHex(h)) == h
    decreases |h|
  {
    if |h| > 0 {
      var b := PackHex(h);
      Bin2HexPackHex(h[2..]);
      assert b == [PackByte(h[0], h[1])] + PackHex(h[2..]);
      SplitByte(HexValue(h[0]), HexValue(h[1]));
      LowerHexDigitOf(h[0]);
      LowerHexDigitOf(h[1]);
      assert Bin2Hex(b) == [h[0], h[1]] + Bin2Hex(PackHex(h[2..]));
      assert h == [h[0], h[1]] + h[2..];
    }
  }

  lemma SplitByte(hi: nat, lo: nat)
    requires hi < 16 && lo < 16
    ensures (16 * hi + lo) / 16 == hi && (16 * hi + lo) % 16 == lo
  {
  }

  /**
   * The library calls the codec makes: `md5($s)` (a hex string), and `openssl_encrypt` /
   * `openssl_decrypt` with 'AES-128-CBC' and OPENSSL_RAW_DATA on (data, key, iv);
   * `openssl_decrypt` may fail (PHP `false`, here `None`).
   */
  datatype Crypto = Crypto(
    md5: string -> string,
    aesEncrypt: (string, seq<byte>, seq<byte>) -> seq<byte>,
    aesDecrypt: (seq<byte>, seq<byte>, seq<byte>) -> Option<string>)

  /** The fixed, public initialisation vector 0x00, 0x01, ..., 0x0f. */
  const InitVector: seq<byte> := [0, 1, 2, 3, 4, 5, 6, 7, 8, 9, 10, 11, 12, 13, 14, 15]

  /** The AES key: the raw bytes of the MD5 digest of the working key. */
  function CipherKey(crypto: Crypto, workingKey: string): (key: seq<byte>)
    ensures |crypto.md5(workingKey)| == 32 ==> |key| == 16
  {
    PackHex(crypto.md5(workingKey))
  }

  /** What `encrypt` returns: the hex form of the ciphertext. */
  function Encryption(crypto: Crypto, workingKey: string, plainText: string): string {
    Bin2Hex(crypto.aesEncrypt(plainText, CipherKey(crypto, workingKey), InitVector))
  }

  /** What `decrypt` returns: the cipher's decryption of the hex-decoded input. */
  function Decryption(crypto: Crypto, workingKey: string, encryptedText: string): Option<string> {
    crypto.aesDecrypt(PackHex(encryptedText), CipherKey(crypto, workingKey), InitVector)
  }

  /** `encrypt`. */
  method Encrypt(crypto: Crypto, workingKey: string, plainText: string) returns (hex: string)
    ensures hex == Encryption(crypto, workingKey, plainText)
    ensures |hex| % 2 == 0 && LowerHex(hex)
  {
    var key := HexToBin(crypto.md5(workingKey));
    var initVector := InitVector;
    var openMode := crypto.aesEncrypt(plainText, key, initVector);
    hex := Bin2Hex(openMode);
  }

  /** `decrypt`. */
  method Decrypt(crypto: Crypto, workingKey: string, encryptedText: string) returns (plain: Option<string>)
    ensures plain == Decryption(crypto, workingKey, encryptedText)
  {
    var key := HexToBin(crypto.md5(workingKey));
    var initVector := InitVector;
    var cipherBytes := HexToBin(encryptedText);
    plain := crypto.aesDecrypt(cipherBytes, key, initVector);
  }

  /** The hypothesis that the cipher's decryption undoes its encryption under the same key and IV. */
  ghost predicate CipherInverts(crypto: Crypto) {
    forall p, key, iv :: crypto.aesDecrypt(crypto.aesEncrypt(p, key, iv), key, iv) == Some(p)
  }

  /** If the cipher inverts, `decrypt(encrypt($p)) === $p`: the hex layer loses nothing. */
  lemma DecryptEncrypt(crypto: Crypto, workingKey: string, plainText: string)
    requires CipherInverts(crypto)
    ensures Decryption(crypto, workingKey, Encryption(crypto, workingKey, plainText)) == Some(plainText)
  {
    PackHexBin2Hex(crypto.aesEncrypt(plainText, CipherKey(crypto, workingKey), InitVector));
  }
}
