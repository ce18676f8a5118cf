/**
 * The two external primitives the engine relies on, given by their
 * operations and by the laws the engine needs of them.
 */
module Primitives {
  import opened Model

  /**
   * Authenticated encryption of a fragment under a passphrase (AES-GCM with
   * the SHA-256 digest of the passphrase as key, nonce prepended).
   * `encrypt` may fail (the nonce comes from the system's random source);
   * `decrypt` fails whenever authentication fails.
   */
  datatype Cipher = Cipher(
    encrypt: (seq<Byte>, string) -> Result<seq<Byte>>,
    decrypt: (seq<Byte>, string) -> Result<seq<Byte>>)

  /** Decrypting under the passphrase used to encrypt gives the plaintext back. */
  ghost predicate Sound(c: Cipher) {
    forall plain, passphrase ::
      c.encrypt(plain, passphrase).Ok? ==>
        c.decrypt(c.encrypt(plain, passphrase).value, passphrase) == Ok(plain)
  }

  /** A ciphertext made under one passphrase opens under no other one. */
  ghost predicate Authenticated(c: Cipher) {
    forall plain, p, q ::
      c.encrypt(plain, p).Ok? && c.decrypt(c.encrypt(plain, p).value, q).Ok? ==> q == p
  }

  /**
   * Shamir's scheme over GF(256): `split(secret, parts, threshold)` maps each
   * fragment key to its fragment.
   */
  datatype Shamir = Shamir(split: (seq<Byte>, nat, nat) -> Result<map<Byte, seq<Byte>>>)

  /** A successful split yields exactly `parts` fragments (with distinct keys, being a map). */
  ghost predicate SplitsIntoParts(s: Shamir) {
    forall secret, parts, threshold ::
      s.split(secret, parts, threshold).Ok? ==> |s.split(secret, parts, threshold).value| == parts
  }
}
