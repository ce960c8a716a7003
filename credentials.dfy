/** The password hasher (bcrypt). Its internals are foreign: the model keeps
    only what the controller relies on. A digest is a type of its own, so a
    plaintext password cannot be stored where a digest is expected. */
module Credentials {

  /** The salt bcrypt draws at random on every call; a parameter here. */
  type Salt = nat

  datatype Digest = Digest(salt: Salt, tag: seq<int>)

  /** A stand-in for bcrypt's key derivation; it has no cryptographic content. */
  function Derive(salt: Salt, password: string): (tag: seq<int>)
    ensures |tag| == |password|
  {
    seq(|password|, i requires 0 <= i < |password| => password[i] as int + salt)
  }

  /** `bcrypt.compare(password, digest)`. */
  predicate Verify(password: string, digest: Digest)
    ensures Verify(password, digest) ==> |password| == |digest.tag|
  {
    digest.tag == Derive(digest.salt, password)
  }

  /** `bcrypt.hash(password, 10)` with the salt it draws. */
  function Hash(salt: Salt, password: string): (d: Digest)
    ensures Verify(password, d)
    ensures d.salt == salt
  {
    Digest(salt, Derive(salt, password))
  }
}
