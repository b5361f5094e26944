/** `decryptValue` of electron/analyzer.ts: opening a field value protected in the Fernet
    token format (version byte 0x80, 8-byte timestamp, 16-byte IV, AES-128-CBC
    ciphertext, HMAC-SHA256 tag of the preceding bytes, RFC 2104). The library calls it
    makes (base64 decoding per RFC 4648 section 4, UTF-8 decoding, HMAC-SHA256 and
    AES-128-CBC with PKCS#7 unpadding) are the fields of `Primitives`; what is modelled
    is the token layout, the key split, the order of the checks and the error wrapping. */
module Fernet {
  import opened Wrappers
  import opened Strings

  type byte = b: int | 0 <= b < 256

  /** An HMAC-SHA256 digest is always 32 bytes. */
  type Digest = s: seq<byte> | |s| == 32 witness seq(32, _ => 0)

  datatype Primitives = Primitives(
    /** `Buffer.from(s, 'base64')`: lenient, skips characters outside the alphabet. */
    base64Decode: string -> seq<byte>,
    /** `buffer.toString('utf-8')`. */
    utf8Decode: seq<byte> -> string,
    /** `createHmac('sha256', key).update(data).digest()`. */
    hmacSha256: (seq<byte>, seq<byte>) -> Digest,
    /** `createDecipheriv('aes-128-cbc', key, iv)` then `update` and `final`; `Err` carries
        the library's message (wrong key or IV length, bad padding). */
    aes128CbcDecrypt: (seq<byte>, seq<byte>, seq<byte>) -> Result<seq<byte>>)

  const Version: byte := 0x80

  /** Node's messages for the two library checks the token can fail. */
  const OutOfBounds := "Attempt to access memory outside buffer bounds"
  const UnequalLengths := "Input buffers must have the same byte length"
  const BadMac := "HMAC verification failed"
  const Prefix := "Decryption failed: "

  /** An index argument of `Buffer#slice`: a negative one counts from the end, and the
      result is clamped into `0..len`. */
  function SliceIndex(i: int, len: nat): (k: nat)
    ensures k <= len
    ensures 0 <= i <= len ==> k == i
  {
    if i < 0 then (if i + len < 0 then 0 else i + len) else if i > len then len else i
  }

  /** `buf.slice(start, end)`; empty when the clamped end is not after the clamped start. */
  function Slice(s: seq<byte>, start: int, end: int): (r: seq<byte>)
    ensures |r| <= |s|
    ensures 0 <= start <= end <= |s| ==> r == s[start..end]
  {
    var a := SliceIndex(start, |s|);
    var b := SliceIndex(end, |s|);
    if b <= a then [] else s[a..b]
  }

  /** `keyBuffer.slice(0, 16)`. */
  function SigningKey(key: seq<byte>): seq<byte> {
    Slice(key, 0, 16)
  }

  /** `keyBuffer.slice(16, 32)`. */
  function EncryptionKey(key: seq<byte>): seq<byte> {
    Slice(key, 16, 32)
  }

  /** The last 32 bytes, `token.slice(token.length - 32)`. */
  function ProvidedTag(token: seq<byte>): seq<byte> {
    Slice(token, |token| - 32, |token|)
  }

  /** Everything before the tag, `token.slice(0, token.length - 32)`. */
  function SignedPart(token: seq<byte>): seq<byte> {
    Slice(token, 0, |token| - 32)
  }

  /** The body of the `try` in `decryptValue`, after the two base64 decodings. */
  function OpenToken(p: Primitives, token: seq<byte>, key: seq<byte>): Result<string> {
    if |token| == 0 then Err(OutOfBounds)
    else if token[0] != Version then Err("Invalid Fernet version: " + NatToString(token[0]))
    else
      var provided := ProvidedTag(token);
      var computed := p.hmacSha256(SigningKey(key), SignedPart(token));
      if |provided| != |computed| then Err(UnequalLengths)
      else if provided != computed then Err(BadMac)
      else
        var iv := Slice(token, 9, 25);
        var ciphertext := Slice(token, 25, |token| - 32);
        match p.aes128CbcDecrypt(EncryptionKey(key), iv, ciphertext)
        case Err(e) => Err(e)
        case Ok(plain) => Ok(p.utf8Decode(plain))
  }

  /** The token inside a field value: base64 of the base64 text of the token bytes. */
  function TokenOf(p: Primitives, encryptedValue: string): seq<byte> {
    p.base64Decode(p.utf8Decode(p.base64Decode(encryptedValue)))
  }

  /** `decryptValue(encryptedValue, key)`: every failure is rethrown under one prefix. */
  function DecryptValue(p: Primitives, encryptedValue: string, key: string): (r: Result<string>)
    ensures r.Err? ==> IsPrefix(Prefix, r.error)
    ensures r.Ok? ==> r == OpenToken(p, TokenOf(p, encryptedValue), p.base64Decode(key))
  {
    match OpenToken(p, TokenOf(p, encryptedValue), p.base64Decode(key))
    case Ok(s) => Ok(s)
    case Err(e) => Err(Prefix + e)
  }

  /** Every failure of the token check surfaces, wrapped, from `DecryptValue`. */
  lemma DecryptValueWrapsFailure(p: Primitives, encryptedValue: string, key: string)
    requires OpenToken(p, TokenOf(p, encryptedValue), p.base64Decode(key)).Err?
    ensures DecryptValue(p, encryptedValue, key)
      == Err(Prefix + OpenToken(p, TokenOf(p, encryptedValue), p.base64Decode(key)).error)
  {
  }

  /** A token whose first byte is not 0x80 is refused before anything else is looked at. */
  lemma WrongVersionRejected(p: Primitives, token: seq<byte>, key: seq<byte>)
    requires |token| > 0 && token[0] != Version
    ensures OpenToken(p, token, key) == Err("Invalid Fernet version: " + NatToString(token[0]))
  {
  }

  /** The signing key is the first half of a 32-byte key, the encryption key the second. */
  lemma KeySplit(key: seq<byte>)
    requires |key| == 32
    ensures SigningKey(key) == key[..16] && EncryptionKey(key) == key[16..]
    ensures SigningKey(key) + EncryptionKey(key) == key
  {
  }

  /** A token shorter than a tag cannot pass: Node's negative slice indices leave fewer
      than 32 bytes where the tag should be, and the comparison throws. */
  lemma ShortTokenRejected(p: Primitives, token: seq<byte>, key: seq<byte>)
    requires 0 < |token| < 32 && token[0] == Version
    ensures OpenToken(p, token, key) == Err(UnequalLengths)
  {
    var n := |token|;
    assert SliceIndex(n - 32, n) == (if 2 * n - 32 < 0 then 0 else 2 * n - 32);
    assert |ProvidedTag(token)| < 32;
  }

  /** Verify-then-decrypt: a token is opened only when its last 32 bytes are the HMAC,
      under the signing key, of everything before them. */
  lemma AcceptedTokenIsAuthentic(p: Primitives, token: seq<byte>, key: seq<byte>)
    requires OpenToken(p, token, key).Ok?
    ensures |token| >= 32 && token[0] == Version
    ensures token[|token| - 32..] == p.hmacSha256(SigningKey(key), token[..|token| - 32])
  {
    if |token| < 32 {
      ShortTokenRejected(p, token, key);
    }
  }

  /** When the tag does not verify, the outcome is the MAC error whatever the block
      cipher would do: decryption is never reached. */
  lemma BadTagRejectedBeforeDecryption(p: Primitives, token: seq<byte>, key: seq<byte>,
                                       other: (seq<byte>, seq<byte>, seq<byte>) -> Result<seq<byte>>)
    requires |token| >= 32 && token[0] == Version
    requires token[|token| - 32..] != p.hmacSha256(SigningKey(key), token[..|token| - 32])
    ensures OpenToken(p, token, key) == Err(BadMac)
    ensures OpenToken(p.(aes128CbcDecrypt := other), token, key) == Err(BadMac)
  {
  }

  /** For a token of full length whose tag verifies, the IV is bytes 9..25, the ciphertext
      runs from byte 25 to the tag, and the key's second half decrypts it. */
  lemma AuthenticTokenLayout(p: Primitives, token: seq<byte>, key: seq<byte>)
    requires |token| >= 57 && token[0] == Version
    requires token[|token| - 32..] == p.hmacSha256(SigningKey(key), token[..|token| - 32])
    ensures OpenToken(p, token, key) ==
      match p.aes128CbcDecrypt(EncryptionKey(key), token[9..25], token[25..|token| - 32])
      case Err(e) => Err(e)
      case Ok(plain) => Ok(p.utf8Decode(plain))
  {
  }

  /** A reference encoder: version, timestamp, IV and ciphertext, then their tag. */
  function EncodeToken(p: Primitives, key: seq<byte>, timestamp: seq<byte>, iv: seq<byte>,
                       ciphertext: seq<byte>): (token: seq<byte>)
    requires |timestamp| == 8 && |iv| == 16
    ensures |token| == 57 + |ciphertext|
  {
    var body := [Version] + timestamp + iv + ciphertext;
    body + p.hmacSha256(SigningKey(key), body)
  }

  /** Opening an encoded token gives back what the block cipher decrypts from its parts. */
  lemma {:induction false} OpenEncodedToken(p: Primitives, key: seq<byte>, timestamp: seq<byte>,
                                            iv: seq<byte>, ciphertext: seq<byte>, plain: seq<byte>)
    requires |key| == 32 && |timestamp| == 8 && |iv| == 16
    requires p.aes128CbcDecrypt(key[16..], iv, ciphertext) == Ok(plain)
    ensures OpenToken(p, EncodeToken(p, key, timestamp, iv, ciphertext), key) == Ok(p.utf8Decode(plain))
  {
    var body := [Version] + timestamp + iv + ciphertext;
    var token := EncodeToken(p, key, timestamp, iv, ciphertext);
    var n := |token|;
    assert token[..n - 32] == body;
    assert token[n - 32..] == p.hmacSha256(SigningKey(key), body);
    assert token[9..25] == iv;
    assert token[25..n - 32] == ciphertext;
    KeySplit(key);
    AuthenticTokenLayout(p, token, key);
  }

  /** Changing any byte of the tag of an encoded token makes it fail verification. */
  lemma {:induction false} FlippedTagRejected(p: Primitives, key: seq<byte>, timestamp: seq<byte>,
                                              iv: seq<byte>, ciphertext: seq<byte>, k: nat, b: byte)
    requires |timestamp| == 8 && |iv| == 16
    requires var token := EncodeToken(p, key, timestamp, iv, ciphertext);
      |token| - 32 <= k < |token| && token[k] != b
    ensures var token := EncodeToken(p, key, timestamp, iv, ciphertext);
      OpenToken(p, token[k := b], key) == Err(BadMac)
  {
    var token := EncodeToken(p, key, timestamp, iv, ciphertext);
    var body := [Version] + timestamp + iv + ciphertext;
    var tampered := token[k := b];
    var n := |token|;
    assert tampered[..n - 32] == body == token[..n - 32];
    assert tampered[n - 32..][k - (n - 32)] == b;
    assert token[n - 32..] == p.hmacSha256(SigningKey(key), body);
    assert tampered[n - 32..] != token[n - 32..];
    BadTagRejectedBeforeDecryption(p, tampered, key, p.aes128CbcDecrypt);
  }
}
