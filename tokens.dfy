/** Access tokens (`jsonwebtoken`), kept as their claims and time stamps;
    encoding and signing are left out. Times are in whole seconds, as JWT
    numeric dates are. */
module Tokens {
  import opened Wrappers

  /** `expiresIn: "30d"` */
  const ThirtyDays: nat := 30 * 24 * 60 * 60

  datatype Claims = Claims(userId: nat, userEmail: string)

  /** `iat` is the mint time and `exp` the expiration time of section 4.1.4
      of RFC 7519. */
  datatype Token = Token(claims: Claims, iat: nat, exp: nat)

  /** The claims a token yields when it is presented at time `now`: none on
      or after its expiration time (section 4.1.4 of RFC 7519). */
  function Decode(t: Token, now: nat): Option<Claims>
  {
    if now < t.exp then Some(t.claims) else None
  }

  /** `getAccessToken`: `jwt.sign(claims, secret, { expiresIn: "30d" })`
      minted at time `now`. */
  function Issue(claims: Claims, now: nat): (t: Token)
    ensures t.iat == now
    ensures Decode(t, now) == Some(claims)
    ensures Decode(t, now + ThirtyDays - 1) == Some(claims)
    ensures Decode(t, now + ThirtyDays) == None
  {
    Token(claims, now, now + ThirtyDays)
  }

  /** A token decodes to exactly the claims it was minted with for thirty
      days after minting, and to nothing from then on. */
  lemma TokenLifetime(claims: Claims, mintTime: nat, now: nat)
    ensures now < mintTime + ThirtyDays ==> Decode(Issue(claims, mintTime), now) == Some(claims)
    ensures now >= mintTime + ThirtyDays ==> Decode(Issue(claims, mintTime), now) == None
  {
  }
}
