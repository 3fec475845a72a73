/** api/helpers/generic.js: password hashing, token signing and checking, and the issuing of
    email-verification challenges. bcrypt, JSON Web Tokens and the Mailtrap transport are
    outside the model; they enter as function-valued parameters (with the one promise each
    makes) or as per-request nondeterministic inputs. */
module Generic {
  import opened Wrappers
  import opened Models

  /** `hashPassword` (bcrypt with a fresh salt) and `comparePassword` (`bcrypt.compare`). */
  datatype Hasher = Hasher(hash: (string, string) -> string, compare: (string, string) -> bool) {
    /** A password matches every hash made from it, whatever the salt. */
    ghost predicate Sound() {
      forall password, salt :: compare(password, hash(password, salt))
    }
  }

  /** `jwt.sign(user.toJSON(), JWT_SECRET)` and `jwt.verify(token, JWT_SECRET)`; a token made
      by this core carries the whole user document as it was when signed. */
  datatype JwtKeys = JwtKeys(sign: User -> string, verify: string -> Option<User>) {
    /** A token this server signed is a non-empty compact JWT that decodes to the document
        it was signed from. */
    ghost predicate Sound() {
      forall u :: sign(u) != "" && verify(sign(u)) == Some(u)
    }
  }

  /** The email sent by the verification mail: recipient and code. */
  datatype Mail = Mail(to: string, code: int)

  /** What a completed `sendEmailVerification` leaves: the store with the new challenge, and
      the mail handed to the transport. */
  datatype Delivery = Delivery(store: Store, mail: Mail)

  datatype MailError = SendFailed

  /** `Math.floor(10000 + Math.random() * 90000)`, for a draw in [0, 1); the arithmetic is
      exact here, rounded in JavaScript. */
  function VerificationCode(draw: real): (code: int)
    requires 0.0 <= draw < 1.0
    ensures CodeMin <= code <= CodeMax
  {
    (10000.0 + draw * 90000.0).Floor
  }

  /** `sendEmailVerification(user)`: draw a code, send it, and only once the send has succeeded
      append a challenge for the user's uuid. `delivered` is the transport's outcome. Earlier
      challenges of the same user are left as they are. */
  function SendEmailVerification(s: Store, user: User, draw: real, delivered: bool): (r: Result<Delivery, MailError>)
    requires 0.0 <= draw < 1.0
    ensures r.Success? <==> delivered
    ensures r.Failure? ==> r == Failure(SendFailed)
    ensures r.Success? ==> r.value.store.users == s.users && r.value.store.loadTime == s.loadTime
    ensures r.Success? ==> r.value.store.challenges == s.challenges + [Challenge(user.uuid, r.value.mail.code, s.loadTime)]
    ensures r.Success? ==> r.value.mail == Mail(user.email, VerificationCode(draw))
    ensures r.Success? && Valid(s) && HasUser(s.users, user.uuid) ==> Valid(r.value.store)
  {
    var code := VerificationCode(draw);
    if !delivered then Failure(SendFailed)
    else
      var s' := s.(challenges := s.challenges + [Challenge(user.uuid, code, s.loadTime)]);
      Success(Delivery(s', Mail(user.email, code)))
  }

  /** The only thing `sendEmailVerification` does to the challenges is add one at the end:
      every challenge there before is still there, in the same place. */
  lemma IssuingNeverSupersedes(s: Store, user: User, draw: real, delivered: bool, i: nat)
    requires 0.0 <= draw < 1.0
    requires i < |s.challenges|
    requires SendEmailVerification(s, user, draw, delivered).Success?
    ensures var t := SendEmailVerification(s, user, draw, delivered).value.store;
      i < |t.challenges| && t.challenges[i] == s.challenges[i]
  {
  }

  /** An answer the gate sends itself. */
  datatype Refusal = Refusal(status: int, message: string)

  const TokenMissing: string := "Access denied. Token missing."
  const InvalidToken: string := "Access denied. Invalid token."

  /** What `authenticateToken` leaves behind: the claims put on `req.user`, how many times
      `next` ran, and the answer the gate sent itself, if any. */
  datatype Gate = Gate(user: Option<User>, nextCalls: nat, reply: Option<Refusal>)

  /** `authenticateToken(req, res, next)`. The raw `Authorization` header is the token (no
      `Bearer ` prefix is removed). The call `next()` sits inside the `try`, so if that call
      itself throws synchronously (`nextThrows`) the catch answers 403 after `next` has run.
      Under Express's router a later handler's own error is caught by the router and passed
      on with `next(err)`, so in practice `nextThrows` is false. */
  function AuthenticateToken(header: Option<string>, keys: JwtKeys, nextThrows: bool): (g: Gate)
    ensures g.nextCalls <= 1
    ensures header.None? || header.value == "" ==> g == Gate(None, 0, Some(Refusal(401, TokenMissing)))
    ensures g.nextCalls == 1 <==> header.Some? && header.value != "" && keys.verify(header.value).Some?
    ensures g.nextCalls == 1 ==> g.user == keys.verify(header.value)
    ensures g.nextCalls == 0 ==> g.user.None? && g.reply.Some?
    ensures header.Some? && header.value != "" && keys.verify(header.value).None? ==>
      g.reply == Some(Refusal(403, InvalidToken))
    ensures g.reply.None? <==> g.nextCalls == 1 && !nextThrows
  {
    if header.None? || header.value == "" then Gate(None, 0, Some(Refusal(401, TokenMissing)))
    else match keys.verify(header.value)
      case None => Gate(None, 0, Some(Refusal(403, InvalidToken)))
      case Some(claims) =>
        if nextThrows then Gate(Some(claims), 1, Some(Refusal(403, InvalidToken)))
        else Gate(Some(claims), 1, None)
  }

  /** A token the core signed for `u`, sent back unchanged, lets the request through with `u`
      as `req.user`. */
  lemma SignedTokenPassesGate(keys: JwtKeys, u: User)
    requires keys.Sound()
    ensures AuthenticateToken(Some(keys.sign(u)), keys, false) == Gate(Some(u), 1, None)
  {
    assert keys.sign(u) != "" && keys.verify(keys.sign(u)) == Some(u);
  }
}
