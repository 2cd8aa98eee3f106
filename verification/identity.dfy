/**
 * The identity collaborators the commands consult: the user table of the
 * local database, and the token service that signs `{ userId }` payloads and
 * verifies bearer tokens. Both are oracles: signing and verification are
 * given as a signing function and a table of the tokens that verify.
 */
module Identity {
  import opened Wrappers

  /** A row of the user table; `password` holds the bcrypt hash. */
  datatype User = User(id: string, email: string, userName: string, password: string)

  /** `user.findUnique({ where: { id } })`: the user with that id, if any. */
  function FindUserById(users: seq<User>, id: string): (r: Option<User>)
    ensures r.Some? ==> r.value in users && r.value.id == id
    ensures r.None? <==> forall u :: u in users ==> u.id != id
  {
    if |users| == 0 then None
    else if users[0].id == id then Some(users[0])
    else FindUserById(users[1..], id)
  }

  /** `user.findUnique({ where: { email } })`: the user with that email, if any. */
  function FindUserByEmail(users: seq<User>, email: string): (r: Option<User>)
    ensures r.Some? ==> r.value in users && r.value.email == email
    ensures r.None? <==> forall u :: u in users ==> u.email != email
  {
    if |users| == 0 then None
    else if users[0].email == email then Some(users[0])
    else FindUserByEmail(users[1..], email)
  }

  /** The decoded payload of a verified token; `userId` is absent when the payload lacks it. */
  datatype Claims = Claims(userId: Option<string>)

  /**
   * The token service: `sign` gives the token issued for `{ userId }`;
   * `payloads` lists every token that currently verifies, with its payload.
   * The signing secret and the 7-day expiry live inside these two oracles.
   */
  datatype JwtService = JwtService(sign: string -> string, payloads: map<string, Claims>)

  datatype VerifyError = InvalidOrExpiredToken

  /** `jwtService.verify(token)`: the payload, or the exception it throws. */
  function Verify(jwt: JwtService, token: string): (r: Result<Claims, VerifyError>)
    ensures r.Ok? <==> token in jwt.payloads
    ensures r.Ok? ==> r.value == jwt.payloads[token]
  {
    if token in jwt.payloads then Ok(jwt.payloads[token]) else Err(InvalidOrExpiredToken)
  }

  /** A token service whose fresh tokens verify to the payload they were signed with. */
  ghost predicate SignsVerifiably(jwt: JwtService) {
    forall uid :: jwt.sign(uid) in jwt.payloads && jwt.payloads[jwt.sign(uid)] == Claims(Some(uid))
  }

  /** A freshly signed token verifies to the signed user id. */
  lemma VerifySigned(jwt: JwtService, uid: string)
    requires SignsVerifiably(jwt)
    ensures Verify(jwt, jwt.sign(uid)) == Ok(Claims(Some(uid)))
  {
  }
}
