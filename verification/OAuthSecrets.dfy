/**
 Secrets of the OAuth sessions (app/api/oauth.py): values stored encrypted, the PKCE pair of
 RFC 7636, and the state handed to the relay.  The cipher, the hash, UTF-8 and JSON stay
 abstract; only their laws are used.
 */
module OAuthSecrets {
  import opened Options
  import opened Strings
  import opened Base64Url

  const NONCE_BYTES := 12

  /** An authenticated cipher: (key, nonce, text). */
  datatype Cipher = Cipher(seal: (Bytes, Bytes, Bytes) -> Bytes, unseal: (Bytes, Bytes, Bytes) -> Option<Bytes>)
  datatype TextCodec = TextCodec(encode: string -> Bytes, decode: Bytes -> Option<string>)

  ghost predicate Lawful(cipher: Cipher) {
    forall key, nonce, text :: cipher.unseal(key, nonce, cipher.seal(key, nonce, text)) == Some(text)
  }

  ghost predicate LawfulCodec(codec: TextCodec) {
    forall s :: codec.decode(codec.encode(s)) == Some(s)
  }

  /** base64url of the nonce followed by the ciphertext. */
  function EncryptValue(cipher: Cipher, codec: TextCodec, key: Bytes, nonce: Bytes, plaintext: string): string {
    Encode(nonce + cipher.seal(key, nonce, codec.encode(plaintext)))
  }

  function DecryptValue(cipher: Cipher, codec: TextCodec, key: Bytes, encrypted: string): Option<string> {
    var raw := Decode(encrypted);
    if raw.None? then None
    else
      var split := if |raw.value| < NONCE_BYTES then |raw.value| else NONCE_BYTES;
      var text := cipher.unseal(key, raw.value[..split], raw.value[split..]);
      if text.None? then None else codec.decode(text.value)
  }

  /** Whatever was encrypted under a 12-byte nonce decrypts to itself under the same key. */
  lemma {:induction false} DecryptUndoesEncrypt(
      cipher: Cipher, codec: TextCodec, key: Bytes, nonce: Bytes, plaintext: string)
    requires Lawful(cipher) && LawfulCodec(codec) && |nonce| == 12
    ensures DecryptValue(cipher, codec, key, EncryptValue(cipher, codec, key, nonce, plaintext)) == Some(plaintext)
  {
    var sealed := cipher.seal(key, nonce, codec.encode(plaintext));
    DecodeUndoesEncode(nonce + sealed);
    assert (nonce + sealed)[..NONCE_BYTES] == nonce && (nonce + sealed)[NONCE_BYTES..] == sealed;
  }

  /** What is stored is the nonce, in the first 12 bytes, and behind it the text sealed under key and nonce. */
  lemma {:induction false} StoredValuesLeadWithTheNonce(
      cipher: Cipher, codec: TextCodec, key: Bytes, nonce: Bytes, plaintext: string)
    requires |nonce| == 12
    ensures var raw := Decode(EncryptValue(cipher, codec, key, nonce, plaintext));
            raw.Some? && |raw.value| >= 12 && raw.value[..12] == nonce
            && raw.value[12..] == cipher.seal(key, nonce, codec.encode(plaintext))
  {
    var sealed := cipher.seal(key, nonce, codec.encode(plaintext));
    DecodeUndoesEncode(nonce + sealed);
    assert (nonce + sealed)[..12] == nonce && (nonce + sealed)[12..] == sealed;
  }

  /** The stored text alone determines nonce and ciphertext, so two stored values differ when either does. */
  lemma {:induction false} StoredValueDeterminesItsParts(nonce1: Bytes, sealed1: Bytes, nonce2: Bytes, sealed2: Bytes)
    requires |nonce1| == |nonce2| == 12
    requires Encode(nonce1 + sealed1) == Encode(nonce2 + sealed2)
    ensures nonce1 == nonce2 && sealed1 == sealed2
  {
    EncodingIsInjective(nonce1 + sealed1, nonce2 + sealed2);
    assert (nonce1 + sealed1)[..NONCE_BYTES] == nonce1 && (nonce1 + sealed1)[NONCE_BYTES..] == sealed1;
    assert (nonce2 + sealed2)[..NONCE_BYTES] == nonce2 && (nonce2 + sealed2)[NONCE_BYTES..] == sealed2;
  }

  // ---------------------------------------------------------------- PKCE

  const VERIFIER_MAX := 128

  function TokenUrlSafe(random: Bytes): string {
    TrimRight(Encode(random), IsPadding)
  }

  /** (verifier, challenge), from 64 random bytes and the hash of the verifier. */
  function GeneratePkce(random: Bytes, sha256: string -> Bytes): (string, string) {
    var token := TokenUrlSafe(random);
    var verifier := if |token| <= VERIFIER_MAX then token else token[..VERIFIER_MAX];
    (verifier, TrimRight(Encode(sha256(verifier)), IsPadding))
  }

  /**
   The verifier meets section 4.1 of RFC 7636: 43 to 128 unreserved characters.  It has 86, so
   the cut at 128 never removes entropy, and the random bytes can all be read back from it.
   */
  lemma {:induction false} VerifierMeetsTheStandard(random: Bytes, sha256: string -> Bytes)
    requires |random| == 64
    ensures var verifier := GeneratePkce(random, sha256).0;
            && |verifier| == 86 && 43 <= |verifier| <= 128
            && (forall i :: 0 <= i < |verifier| ==> IsLetter(verifier[i]))
            && Decode(verifier + "==") == Some(random)
  {
    StrippedTokenShape(random, TokenUrlSafe(random), "==");
  }

  /**
   The challenge of section 4.2 is 43 unpadded characters from which exactly the digest of
   the verifier can be read back.
   */
  lemma {:induction false} ChallengeMeetsTheStandard(random: Bytes, sha256: string -> Bytes)
    requires forall s :: |sha256(s)| == 32
    ensures var (verifier, challenge) := GeneratePkce(random, sha256);
            && |challenge| == 43 && (forall i :: 0 <= i < |challenge| ==> IsLetter(challenge[i]))
            && Decode(challenge + "=") == Some(sha256(verifier))
  {
    var (verifier, challenge) := GeneratePkce(random, sha256);
    StrippedTokenShape(sha256(verifier), challenge, "=");
  }

  lemma {:induction false} StrippedTokenShape(bytes: Bytes, token: string, padding: string)
    requires token == TrimRight(Encode(bytes), IsPadding)
    requires padding == Padding((4 * |bytes| + 2) / 3)
    ensures |token| == (4 * |bytes| + 2) / 3
    ensures forall i :: 0 <= i < |token| ==> IsLetter(token[i])
    ensures Decode(token + padding) == Some(bytes)
  {
    UnpaddedShape(bytes);
    StrippedPaddingIsRestorable(bytes);
  }

  // ---------------------------------------------------------------- relay state

  /** `json` renders the CSRF token and the redirect URI. */
  function EncodeRelayState(
      csrf: string, redirect: string, json: (string, string) -> string, codec: TextCodec): string
  {
    TrimRight(Encode(codec.encode(json(csrf, redirect))), IsPadding)
  }

  /** The relay gets the very same JSON text back after completing the padding. */
  lemma {:induction false} RelayStateIsReadable(
      csrf: string, redirect: string, json: (string, string) -> string, codec: TextCodec)
    requires LawfulCodec(codec)
    ensures var state := EncodeRelayState(csrf, redirect, json, codec);
            var raw := Decode(state + Padding(|state|));
            raw.Some? && codec.decode(raw.value) == Some(json(csrf, redirect))
    ensures forall i :: 0 <= i < |EncodeRelayState(csrf, redirect, json, codec)| ==>
              IsLetter(EncodeRelayState(csrf, redirect, json, codec)[i])
  {
    StrippedPaddingIsRestorable(codec.encode(json(csrf, redirect)));
    UnpaddedShape(codec.encode(json(csrf, redirect)));
  }
}
