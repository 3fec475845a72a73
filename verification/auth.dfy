/** api/controllers/auth.js: the four request handlers, each a pure transition from the store
    and the request to the new store, the answer (status and body) and the mails handed to
    the transport. Uncaught errors end in each handler's `catch`, which answers 500
    "Server Error" (401 "Invalid Google token" for Google login) without undoing the writes
    already made. */
module Auth {
  import opened Wrappers
  import opened JsRuntime
  import opened Patterns
  import opened Models
  import opened Generic

  /** The JSON bodies the handlers send. Fields whose value is `undefined` are omitted by
      JSON serialisation, so `name` never appears: the schema drops it. */
  datatype Body =
    | Message(text: string)
    | Unverified(uuid: string, emailVerified: Option<bool>)
    | Session(uuid: string, email: string, emailVerified: Option<bool>, googleId: Option<string>, accessToken: string)
    | Verified(uuid: string, email: string, accessToken: string)

  datatype Reply = Reply(status: int, body: Body)

  /** The state after a request, what was answered, and the mails sent while handling it. */
  datatype Outcome = Outcome(store: Store, reply: Reply, sent: seq<Mail>)

  /** What the outside world chose while one request ran: the `uuidv4()` value, the bcrypt salt,
      the `Math.random()` draw for the code, and whether Mailtrap accepted the mail. */
  datatype Effects = Effects(uuid: string, salt: string, draw: real, delivered: bool) {
    predicate Valid() {
      0.0 <= draw < 1.0
    }
  }

  /** The claims of a Google ID token that `verifyIdToken` accepted. */
  datatype Payload = Payload(sub: string, email: string, emailVerified: bool)

  const EmailRequired: string := "Email is required"
  const EmailNotValid: string := "Email is not valid"
  const PasswordRequired: string := "Password is required"
  const PasswordTooWeak: string := "Password must include 6 characters and 1 number"
  const EmailTaken: string := "Email is already taken"
  const ServerError: string := "Server Error"
  const IncorrectCredentials: string := "Incorrect email or password"
  const CodeExpired: string := "Code has expired"
  const InvalidCode: string := "Invalid code"
  const InvalidGoogleToken: string := "Invalid Google token"

  /** An error answer that leaves the store as it is and sends nothing. */
  function Refuse(s: Store, status: int, text: string): Outcome {
    Outcome(s, Reply(status, Message(text)), [])
  }

  predicate EmailFree(users: seq<User>, email: string) {
    forall k :: 0 <= k < |users| ==> users[k].email != email
  }

  /** `comparePassword(password, user.password)` when the user has a stored hash. */
  predicate PasswordMatches(h: Hasher, password: string, u: User) {
    u.password.Some? && h.compare(password, u.password.value)
  }

  /** The document `registerUser` creates: hashed password, `googleId` at its null default,
      `emailVerified` unset. */
  function RegisteredUser(h: Hasher, email: string, password: string, fx: Effects): User {
    User(None, fx.uuid, email, Some(h.hash(password, fx.salt)), None)
  }

  /** The document `googleAuth` creates for an unknown subject: no password, the issuer's
      verification claim copied. */
  function GoogleUser(p: Payload, fx: Effects): User {
    User(Some(p.sub), fx.uuid, p.email, None, Some(p.emailVerified))
  }

  lemma AppendedUserIsKnown(users: seq<User>, u: User)
    ensures HasUser(users + [u], u.uuid)
  {
    assert (users + [u])[|users|] == u;
  }

  // ---------------------------------------------------------------------------------------

  /** `registerUser`: validation in a fixed order, the duplicate check, then create and issue a
      challenge. */
  function Register(s: Store, h: Hasher, email: string, password: string, fx: Effects): (r: Outcome)
    requires fx.Valid()
    ensures r.reply.status == 200 || r.reply.status == 500
    ensures r.reply.status == 200 <==>
      EmailPatternMatches(email) && PasswordPatternMatches(password) && EmailFree(s.users, email) && fx.delivered
    ensures r.reply.status == 200 ==>
      && r.reply == Reply(200, Unverified(fx.uuid, Some(false)))
      && r.store.users == s.users + [RegisteredUser(h, email, password, fx)]
      && r.sent == [Mail(email, VerificationCode(fx.draw))]
      && r.store.challenges == s.challenges + [Challenge(fx.uuid, VerificationCode(fx.draw), s.loadTime)]
    ensures !(EmailPatternMatches(email) && PasswordPatternMatches(password) && EmailFree(s.users, email)) ==>
      r.store == s && r.sent == []
    ensures EmailPatternMatches(email) && PasswordPatternMatches(password) && EmailFree(s.users, email) && !fx.delivered ==>
      r == Refuse(s.(users := s.users + [RegisteredUser(h, email, password, fx)]), 500, ServerError)
    ensures Valid(s) ==> Valid(r.store)
    ensures Extends(s, r.store)
  {
    EmailRegexTestCorrect(email);
    PasswordRegexTestCorrect(password);
    if |email| == 0 then Refuse(s, 500, EmailRequired)
    else if !EmailRegexTest(email) then Refuse(s, 500, EmailNotValid)
    else if |password| == 0 then Refuse(s, 500, PasswordRequired)
    else if !PasswordRegexTest(password) then Refuse(s, 500, PasswordTooWeak)
    else if FindUserByEmail(s.users, email).Some? then Refuse(s, 500, EmailTaken)
    else
      var u := RegisteredUser(h, email, password, fx);
      match CreateUser(s, u)
      case Failure(_) => Refuse(s, 500, ServerError)
      case Success(created) =>
        AppendedUserIsKnown(s.users, u);
        match SendEmailVerification(created, u, fx.draw, fx.delivered)
        case Failure(_) => Refuse(created, 500, ServerError)
        case Success(d) => Outcome(d.store, Reply(200, Unverified(u.uuid, Some(false))), [d.mail])
  }

  /** Register answers only the first failing check, every one with status 500, in the order
      empty email, email pattern, empty password, password pattern, email taken. */
  lemma RegisterReportsFirstFailure(s: Store, h: Hasher, email: string, password: string, fx: Effects)
    requires fx.Valid()
    ensures var r := Register(s, h, email, password, fx);
      && (|email| == 0 ==> r == Refuse(s, 500, EmailRequired))
      && (|email| > 0 && !EmailPatternMatches(email) ==> r == Refuse(s, 500, EmailNotValid))
      && (EmailPatternMatches(email) && |password| == 0 ==> r == Refuse(s, 500, PasswordRequired))
      && (EmailPatternMatches(email) && |password| > 0 && !PasswordPatternMatches(password) ==>
            r == Refuse(s, 500, PasswordTooWeak))
      && (EmailPatternMatches(email) && PasswordPatternMatches(password) && !EmailFree(s.users, email) ==>
            r == Refuse(s, 500, EmailTaken))
  {
    EmailRegexTestCorrect(email);
    PasswordRegexTestCorrect(password);
  }

  /** `loginUser`: a token only for a verified account with the right password; a verified-less
      account with the right password is sent a new code instead. */
  function Login(s: Store, h: Hasher, keys: JwtKeys, email: string, password: string, fx: Effects): (r: Outcome)
    requires fx.Valid()
    ensures r.store.users == s.users && r.store.loadTime == s.loadTime
    ensures EmailFree(s.users, email) ==> r == Refuse(s, 500, IncorrectCredentials)
    ensures var found := FindUserByEmail(s.users, email);
      found.Some? ==>
        var u := s.users[found.value];
        && (u.password.None? ==> r == Refuse(s, 500, ServerError))
        && (u.password.Some? && !h.compare(password, u.password.value) ==> r == Refuse(s, 500, IncorrectCredentials))
        && (r.reply.body.Session? <==> PasswordMatches(h, password, u) && Truthy(u.emailVerified))
        && (r.reply.body.Session? ==>
              r == Outcome(s, Reply(200, Session(u.uuid, u.email, u.emailVerified, u.googleId, keys.sign(u))), []))
        && (PasswordMatches(h, password, u) && !Truthy(u.emailVerified) && fx.delivered ==>
              && r.reply == Reply(200, Unverified(u.uuid, u.emailVerified))
              && r.sent == [Mail(u.email, VerificationCode(fx.draw))]
              && r.store.challenges == s.challenges + [Challenge(u.uuid, VerificationCode(fx.draw), s.loadTime)])
        && (PasswordMatches(h, password, u) && !Truthy(u.emailVerified) && !fx.delivered ==>
              r == Refuse(s, 500, ServerError))
    ensures Valid(s) ==> Valid(r.store)
    ensures Extends(s, r.store)
  {
    match FindUserByEmail(s.users, email)
    case None => Refuse(s, 500, IncorrectCredentials)
    case Some(i) =>
      var u := s.users[i];
      if u.password.None? then Refuse(s, 500, ServerError)
      else if !h.compare(password, u.password.value) then Refuse(s, 500, IncorrectCredentials)
      else if Truthy(u.emailVerified) then
        Outcome(s, Reply(200, Session(u.uuid, u.email, u.emailVerified, u.googleId, keys.sign(u))), [])
      else
        assert HasUser(s.users, u.uuid);
        match SendEmailVerification(s, u, fx.draw, fx.delivered)
        case Failure(_) => Refuse(s, 500, ServerError)
        case Success(d) => Outcome(d.store, Reply(200, Unverified(u.uuid, u.emailVerified)), [d.mail])
  }

  /** An unknown email and a wrong password get the same answer and change nothing, so the
      answer does not tell whether the account exists. */
  lemma LoginHidesAccountExistence(s: Store, h: Hasher, keys: JwtKeys, email: string, password: string, fx: Effects,
                                   other: string, otherPassword: string)
    requires fx.Valid()
    requires EmailFree(s.users, other)
    requires FindUserByEmail(s.users, email).Some?
    requires var u := s.users[FindUserByEmail(s.users, email).value];
      u.password.Some? && !h.compare(otherPassword, u.password.value)
    ensures Login(s, h, keys, other, password, fx) == Login(s, h, keys, email, otherPassword, fx)
    ensures Login(s, h, keys, other, password, fx) == Refuse(s, 500, IncorrectCredentials)
  {
  }

  /** `verifyCode`: compare the submitted code with the user's oldest challenge; on a match mark
      the user verified, delete that one challenge, and sign the user document as it was read
      before the update. */
  function VerifyCode(s: Store, keys: JwtKeys, uuid: string, code: string): (r: Outcome)
    ensures r.sent == [] && r.store.loadTime == s.loadTime
    ensures (forall k :: 0 <= k < |s.challenges| ==> s.challenges[k].uuid != uuid) ==> r == Refuse(s, 400, CodeExpired)
    ensures var ci := FindChallenge(s.challenges, uuid);
      ci.Some? && ParseInt(code) != Some(s.challenges[ci.value].code) ==> r == Refuse(s, 400, InvalidCode)
    ensures var ci := FindChallenge(s.challenges, uuid);
      ci.Some? && ParseInt(code) == Some(s.challenges[ci.value].code) && HasUser(s.users, uuid) ==>
        var c := s.challenges[ci.value];
        var ui := FindUserByUuid(s.users, uuid).value;
        var u := s.users[ui];
        && r.store.users == s.users[ui := u.(emailVerified := Some(true))]
        && r.store.challenges == s.challenges[..ci.value] + s.challenges[ci.value + 1..]
        && multiset(r.store.challenges) + multiset{c} == multiset(s.challenges)
        && r.reply == Reply(200, Verified(uuid, u.email, keys.sign(u)))
    ensures r.reply.status == 200 || r.reply.status == 400 || r.reply.status == 500
    ensures r.reply.status != 200 ==> r.store == s
    ensures Valid(s) ==> Valid(r.store)
    ensures Extends(s, r.store)
  {
    match FindChallenge(s.challenges, uuid)
    case None => Refuse(s, 400, CodeExpired)
    case Some(ci) =>
      if ParseInt(code) != Some(s.challenges[ci].code) then Refuse(s, 400, InvalidCode)
      else match FindUserByUuid(s.users, uuid)
        case None => Refuse(s, 500, ServerError)
        case Some(ui) => Confirm(s, keys, ui, ci)
  }

  /** The success branch of `verifyCode`: mark the account at `ui` verified, delete the
      challenge at `ci`, and sign the account as it was read before the update. */
  function Confirm(s: Store, keys: JwtKeys, ui: nat, ci: nat): (r: Outcome)
    requires ui < |s.users| && ci < |s.challenges|
    ensures var u := s.users[ui];
      && r.store.users == s.users[ui := u.(emailVerified := Some(true))]
      && r.store.challenges == s.challenges[..ci] + s.challenges[ci + 1..]
      && multiset(r.store.challenges) + multiset{s.challenges[ci]} == multiset(s.challenges)
      && r.store.loadTime == s.loadTime
      && r.reply == Reply(200, Verified(u.uuid, u.email, keys.sign(u)))
      && r.sent == []
    ensures Valid(s) ==> Valid(r.store)
    ensures Extends(s, r.store)
  {
    var u := s.users[ui];
    var marked := MarkVerified(s, ui);
    var after := DeleteChallenge(marked, ci);
    DeleteKeepsOrder(marked, ci);
    Outcome(after, Reply(200, Verified(u.uuid, u.email, keys.sign(u))), [])
  }

  /** `googleAuth`: find-or-create by Google subject. `ticket` is what `verifyIdToken` returned
      (`None` when it threw). A new subject whose email the issuer has not verified is created
      and mailed a code, and then the handler reads `uuid` on a null `user`, so the answer is
      the catch's 401. */
  function GoogleAuth(s: Store, keys: JwtKeys, ticket: Option<Payload>, fx: Effects): (r: Outcome)
    requires fx.Valid()
    ensures r.reply.status == 200 || r.reply.status == 401
    ensures r.reply.status == 200 <==> r.reply.body.Session?
    ensures r.store.loadTime == s.loadTime
    ensures ticket.None? ==> r == Refuse(s, 401, InvalidGoogleToken)
    ensures ticket.Some? && FindUserByGoogleId(s.users, ticket.value.sub).Some? ==>
      var u := s.users[FindUserByGoogleId(s.users, ticket.value.sub).value];
      r == Outcome(s, Reply(200, Session(u.uuid, u.email, u.emailVerified, u.googleId, keys.sign(u))), [])
    ensures ticket.Some? && FindUserByGoogleId(s.users, ticket.value.sub).None? && !EmailFree(s.users, ticket.value.email) ==>
      r == Refuse(s, 401, InvalidGoogleToken)
    ensures ticket.Some? && FindUserByGoogleId(s.users, ticket.value.sub).None? && EmailFree(s.users, ticket.value.email) ==>
      var u := GoogleUser(ticket.value, fx);
      && r.store.users == s.users + [u]
      && (ticket.value.emailVerified ==>
            r == Outcome(s.(users := s.users + [u]), Reply(200, Session(u.uuid, u.email, Some(true), Some(ticket.value.sub), keys.sign(u))), []))
      && (!ticket.value.emailVerified ==> r.reply == Reply(401, Message(InvalidGoogleToken)))
      && (!ticket.value.emailVerified && fx.delivered ==>
            r.sent == [Mail(u.email, VerificationCode(fx.draw))] &&
            r.store.challenges == s.challenges + [Challenge(u.uuid, VerificationCode(fx.draw), s.loadTime)])
      && (!ticket.value.emailVerified && !fx.delivered ==> r.store.challenges == s.challenges && r.sent == [])
    ensures Valid(s) ==> Valid(r.store)
    ensures Extends(s, r.store)
  {
    match ticket
    case None => Refuse(s, 401, InvalidGoogleToken)
    case Some(p) =>
      match FindUserByGoogleId(s.users, p.sub)
      case Some(i) =>
        var u := s.users[i];
        Outcome(s, Reply(200, Session(u.uuid, u.email, u.emailVerified, u.googleId, keys.sign(u))), [])
      case None =>
        var u := GoogleUser(p, fx);
        match CreateUser(s, u)
        case Failure(_) => Refuse(s, 401, InvalidGoogleToken)
        case Success(created) =>
          if !p.emailVerified then
            AppendedUserIsKnown(s.users, u);
            match SendEmailVerification(created, u, fx.draw, fx.delivered)
            case Failure(_) => Refuse(created, 401, InvalidGoogleToken)
            case Success(d) => Outcome(d.store, Reply(401, Message(InvalidGoogleToken)), [d.mail])
          else
            Outcome(created, Reply(200, Session(u.uuid, u.email, u.emailVerified, u.googleId, keys.sign(u))), [])
  }
}
