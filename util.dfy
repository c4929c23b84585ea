/**
 * util.go: cell padding, list membership and the framing of the encrypted-file envelope
 * (a 16-byte IV followed by the CFB-encrypted payload).
 */
module Util {
  import opened Wrappers
  import opened Text

  /** `PadRight(str, pad, length)`: append `pad` until the string is longer than `length`,
      then cut it to `length` bytes. With an empty pad and a short string the Go loop never
      ends and with a negative length the final slice panics, so callers avoid both.
      The result keeps the first bytes of `str`, then repeats `pad` from its start. */
  method PadRight(str: string, pad: string, length: int) returns (r: string)
    requires length >= 0
    requires |pad| > 0 || |str| > length
    ensures |r| == length
    ensures forall i :: 0 <= i < length && i < |str| ==> r[i] == str[i]
    ensures forall i :: |str| <= i < length && i < |str| + |pad| ==> r[i] == pad[i - |str|]
    ensures forall i :: |str| + |pad| <= i < length ==> r[i] == r[i - |pad|]
  {
    var s := str;
    while true
      invariant |str| <= |s| && s[..|str|] == str
      invariant |s| > |str| ==> |pad| > 0 && |s| >= |str| + |pad| && s[|s| - |pad|..] == pad
      invariant forall i :: |str| <= i < |s| && i < |str| + |pad| ==> s[i] == pad[i - |str|]
      invariant forall i :: |str| + |pad| <= i < |s| ==> s[i] == s[i - |pad|]
      decreases length + 1 - |s|
    {
      s := s + pad;
      if |s| > length {
        return s[..length];
      }
    }
  }

  /** `contains(a, list)`. */
  method Contains(a: string, list: seq<string>) returns (found: bool)
    ensures found <==> a in list
  {
    for k := 0 to |list|
      invariant a !in list[..k]
    {
      if list[k] == a {
        return true;
      }
    }
    return false;
  }

  /** `aes.BlockSize`: the IV length of the envelope. */
  const BlockSize: nat := 16

  type Byte = bv8

  /** The AES-CFB keystream, left abstract: given the key and everything the stream has fed
      back so far (the IV followed by the ciphertext already produced), the next key byte.
      Real CFB uses only the last full block of that feedback; any such cipher is an
      instance of this type. */
  type Keystream = (seq<Byte>, seq<Byte>) -> Byte

  /** `aes.NewCipher` accepts AES-128, AES-192 and AES-256 keys. */
  predicate ValidKeySize(n: nat) {
    n == 16 || n == 24 || n == 32
  }

  function KeySizeError(n: nat): string {
    "crypto/aes: invalid key size " + Itoa(n)
  }

  /** `c` is an envelope of `text`: the IV block, then each plaintext byte XORed with the
      key byte drawn from the feedback that precedes it. */
  ghost predicate IsEnvelope(key: seq<Byte>, iv: seq<Byte>, text: seq<Byte>, c: seq<Byte>, ks: Keystream) {
    && |iv| == BlockSize
    && |c| == BlockSize + |text|
    && c[..BlockSize] == iv
    && forall j :: 0 <= j < |text| ==> c[BlockSize + j] == text[j] ^ ks(key, c[..BlockSize + j])
  }

  /** What `decrypt` yields from an envelope of at least one block: the payload XORed with
      the keystream fed by the envelope's own bytes. */
  function OpenedPayload(key: seq<Byte>, c: seq<Byte>, ks: Keystream): (p: seq<Byte>)
    requires |c| >= BlockSize
    ensures |p| == |c| - BlockSize
  {
    seq(|c| - BlockSize, j requires 0 <= j < |c| - BlockSize => c[BlockSize + j] ^ ks(key, c[..BlockSize + j]))
  }

  /** `encrypt(key, text)`, with the random IV that `crypto/rand` would supply given as `iv`. */
  method Encrypt(key: seq<Byte>, text: seq<Byte>, iv: seq<Byte>, ks: Keystream) returns (r: Result<seq<Byte>>)
    requires |iv| == BlockSize
    ensures !ValidKeySize(|key|) ==> r == Err(KeySizeError(|key|))
    ensures ValidKeySize(|key|) ==> r.Ok? && IsEnvelope(key, iv, text, r.value, ks)
  {
    if !ValidKeySize(|key|) {
      return Err(KeySizeError(|key|));
    }
    var ciphertext := new Byte[BlockSize + |text|];
    for i := 0 to BlockSize
      invariant ciphertext[..i] == iv[..i]
    {
      ciphertext[i] := iv[i];
    }
    for j := 0 to |text|
      invariant ciphertext[..BlockSize] == iv
      invariant forall k :: 0 <= k < j ==>
                  ciphertext[BlockSize + k] == text[k] ^ ks(key, ciphertext[..BlockSize + k])
    {
      ciphertext[BlockSize + j] := text[j] ^ ks(key, ciphertext[..BlockSize + j]);
    }
    return Ok(ciphertext[..]);
  }

  /** `decrypt(key, text)`: the key check, the length check, then the payload decrypted in
      place. */
  method Decrypt(key: seq<Byte>, text: seq<Byte>, ks: Keystream) returns (r: Result<seq<Byte>>)
    ensures !ValidKeySize(|key|) ==> r == Err(KeySizeError(|key|))
    ensures ValidKeySize(|key|) && |text| < BlockSize ==> r == Err("ciphertext too short")
    ensures ValidKeySize(|key|) && |text| >= BlockSize ==> r == Ok(OpenedPayload(key, text, ks))
  {
    if !ValidKeySize(|key|) {
      return Err(KeySizeError(|key|));
    }
    if |text| < BlockSize {
      return Err("ciphertext too short");
    }
    var payload := new Byte[|text| - BlockSize](j requires 0 <= j < |text| - BlockSize => text[BlockSize + j]);
    for j := 0 to payload.Length
      invariant forall k :: 0 <= k < j ==> payload[k] == text[BlockSize + k] ^ ks(key, text[..BlockSize + k])
      invariant forall k :: j <= k < payload.Length ==> payload[k] == text[BlockSize + k]
    {
      payload[j] := payload[j] ^ ks(key, text[..BlockSize + j]);
    }
    assert payload[..] == OpenedPayload(key, text, ks);
    return Ok(payload[..]);
  }

  /** Decrypting an envelope with the key that sealed it gives back the plaintext. */
  lemma RoundTrip(key: seq<Byte>, iv: seq<Byte>, text: seq<Byte>, c: seq<Byte>, ks: Keystream)
    requires IsEnvelope(key, iv, text, c, ks)
    ensures OpenedPayload(key, c, ks) == text
  {
    forall j | 0 <= j < |text|
      ensures OpenedPayload(key, c, ks)[j] == text[j]
    {
      var k := ks(key, c[..BlockSize + j]);
      assert (text[j] ^ k) ^ k == text[j];
    }
  }
}
