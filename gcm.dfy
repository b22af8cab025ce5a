/**
  * AES in Galois/Counter Mode (NIST SP 800-38D) as Go's `crypto/aes` and
  * `crypto/cipher` offer it, seen from outside.
  *
  * `aes.NewCipher` accepts 16-, 24- and 32-byte keys and fails with `aes.KeySizeError`
  * otherwise; `cipher.NewGCM` over an AES block never fails, uses 12-byte nonces and
  * appends a 16-byte tag. Sealing and opening themselves are not defined here: an `Aead`
  * value carries them as functions, and `Correct` and `AddsTag` state the laws every
  * lemma that needs them assumes of them.
  */
module Gcm {
  import opened Common

  /** `aesGCM.NonceSize()` for the standard GCM construction. */
  const NonceSize: nat := 12

  /** `aesGCM.Overhead()`: the length of the authentication tag. */
  const Overhead: nat := 16

  /** The key lengths `aes.NewCipher` accepts (AES-128, AES-192, AES-256). */
  predicate ValidKeySize(key: Bytes) {
    |key| == 16 || |key| == 24 || |key| == 32
  }

  /**
    * `Seal(key, nonce, plaintext)` and `Open(key, nonce, ciphertext)`, the latter `None`
    * when authentication fails (tampered bytes, wrong key or wrong nonce).
    */
  datatype Aead = Aead(
    seal: (Bytes, Bytes, Bytes) -> Bytes,
    open: (Bytes, Bytes, Bytes) -> Option<Bytes>)

  /** Opening what was sealed under the same key and nonce gives back the plaintext. */
  ghost predicate Correct(a: Aead) {
    forall key: Bytes, nonce: Bytes, plaintext: Bytes
      | ValidKeySize(key) && |nonce| == NonceSize
      :: a.open(key, nonce, a.seal(key, nonce, plaintext)) == Some(plaintext)
  }

  /** The sealed form is the plaintext's length plus the tag. */
  ghost predicate AddsTag(a: Aead) {
    forall key: Bytes, nonce: Bytes, plaintext: Bytes
      | ValidKeySize(key) && |nonce| == NonceSize
      :: |a.seal(key, nonce, plaintext)| == |plaintext| + Overhead
  }
}
