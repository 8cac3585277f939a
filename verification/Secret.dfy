/** Symbolic cryptography (internal/secret/secret.go and the WebCrypto calls of zk.js).
    A wrapped key or a sealed value opens under the key that closed it and under no other;
    different derivation inputs give different keys. Nonces are left out: they never
    decide whether something opens. */
module Secret {
  import opened Wrappers

  datatype Key =
    | FromString(material: string)                               // SHA-256 of the key file
    | FromPassphrase(pass: string, salt: nat)                    // Argon2id, on the server
    | FromBrowserPass(browserPass: string, kdfSalt: nat, iters: nat)  // PBKDF2, in the browser
    | FromPRF(credential: string, prfSalt: nat)                  // HKDF of a security key's prf output
    | Generated(serial: nat)                                     // fresh data key made in the browser

  datatype Wrapped = Wrapped(kek: Key, dek: Key)

  /** The `secret_enc` column: empty, or a value sealed under some key. */
  datatype Enc = Blank | Sealed(key: Key, plain: string)

  function WrapKey(dek: Key, kek: Key): Wrapped { Wrapped(kek, dek) }

  function UnwrapKey(w: Wrapped, kek: Key): Option<Key> {
    if w.kek == kek then Some(w.dek) else None
  }

  function Open(enc: Enc, key: Key): Option<string> {
    if enc.Sealed? && enc.key == key then Some(enc.plain) else None
  }
}
