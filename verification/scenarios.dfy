/** Properties that relate several requests: the register-verify-login round trip, what the
    never-superseded challenges and the load-time `createdAt` mean for a user, the Google
    account that gets a token without a verified email, and the store invariant over any
    sequence of requests. */
module Scenarios {
  import opened Wrappers
  import opened JsRuntime
  import opened Patterns
  import opened Models
  import opened Generic
  import opened Auth

  /** A store in which `uuid` names nobody also holds no challenge for it. */
  lemma FreshUuidHasNoChallenge(s: Store, uuid: string)
    requires Valid(s) && !HasUser(s.users, uuid)
    ensures forall k :: 0 <= k < |s.challenges| ==> s.challenges[k].uuid != uuid
  {
    forall k | 0 <= k < |s.challenges| ensures s.challenges[k].uuid != uuid {
      assert ChallengeOk(s, s.challenges[k]);
    }
  }

  /** After a successful register, the new account is the one `uuid` lookups find, and its
      challenge is the one `verifyCode` compares against. */
  lemma RegisteredAccountIsFound(s: Store, h: Hasher, email: string, password: string, fx: Effects)
    requires Valid(s) && fx.Valid() && fx.delivered && !HasUser(s.users, fx.uuid)
    requires EmailPatternMatches(email) && PasswordPatternMatches(password) && EmailFree(s.users, email)
    ensures var r := Register(s, h, email, password, fx);
      && FindUserByUuid(r.store.users, fx.uuid) == Some(|s.users|)
      && FindChallenge(r.store.challenges, fx.uuid) == Some(|s.challenges|)
  {
    var r := Register(s, h, email, password, fx);
    var c := Challenge(fx.uuid, VerificationCode(fx.draw), s.loadTime);
    assert r.store.users == s.users + [RegisteredUser(h, email, password, fx)];
    assert r.store.challenges == s.challenges + [c];
    UserFoundAtEnd(s.users, RegisteredUser(h, email, password, fx));
    FreshUuidHasNoChallenge(s, fx.uuid);
    ChallengeFoundAfter(s.challenges, [c], fx.uuid);
  }

  /** An account appended after accounts that do not hold its uuid is the one the uuid finds. */
  lemma UserFoundAtEnd(users: seq<User>, u: User)
    requires !HasUser(users, u.uuid)
    ensures FindUserByUuid(users + [u], u.uuid) == Some(|users|)
  {
    var r := FindUserByUuid(users + [u], u.uuid);
    assert (users + [u])[|users|] == u;
    assert forall k :: 0 <= k < |users| ==> (users + [u])[k] == users[k];
    assert r.Some?;
  }

  /** Challenges appended after challenges of other users: the first of them is the one found. */
  lemma ChallengeFoundAfter(cs: seq<Challenge>, extra: seq<Challenge>, uuid: string)
    requires forall k :: 0 <= k < |cs| ==> cs[k].uuid != uuid
    requires |extra| > 0 && extra[0].uuid == uuid
    ensures FindChallenge(cs + extra, uuid) == Some(|cs|)
  {
    var r := FindChallenge(cs + extra, uuid);
    assert (cs + extra)[|cs|] == extra[0];
    assert forall k :: 0 <= k < |cs| ==> (cs + extra)[k] == cs[k];
    assert r.Some?;
  }

  /** Registering the same address twice: the second attempt is refused as taken. */
  lemma SecondRegisterIsTaken(s: Store, h: Hasher, email: string, password: string, password2: string,
                              fx: Effects, fx2: Effects)
    requires fx.Valid() && fx2.Valid()
    requires Register(s, h, email, password, fx).reply.status == 200
    requires PasswordPatternMatches(password2)
    ensures var r1 := Register(s, h, email, password, fx);
      Register(r1.store, h, email, password2, fx2) == Refuse(r1.store, 500, EmailTaken)
  {
    var r1 := Register(s, h, email, password, fx);
    assert r1.store.users[|s.users|].email == email;
    RegisterReportsFirstFailure(r1.store, h, email, password2, fx2);
  }

  /** The store a successful register leaves: the new account and one challenge for it. */
  lemma RegisterStore(s: Store, h: Hasher, email: string, password: string, fx: Effects)
    requires Valid(s) && fx.Valid() && fx.delivered && !HasUser(s.users, fx.uuid)
    requires EmailPatternMatches(email) && PasswordPatternMatches(password) && EmailFree(s.users, email)
    ensures var r := Register(s, h, email, password, fx);
      && r.store == Store(s.users + [RegisteredUser(h, email, password, fx)],
                          s.challenges + [Challenge(fx.uuid, VerificationCode(fx.draw), s.loadTime)], s.loadTime)
      && Valid(r.store)
      && FindUserByUuid(r.store.users, fx.uuid) == Some(|s.users|)
      && FindChallenge(r.store.challenges, fx.uuid) == Some(|s.challenges|)
  {
    RegisteredAccountIsFound(s, h, email, password, fx);
  }

  /** Verifying the account at `ui` against the challenge at `ci` marks that account and
      takes that challenge out. */
  lemma VerifiedStore(t: Store, keys: JwtKeys, uuid: string, code: string, ui: nat, ci: nat)
    requires FindUserByUuid(t.users, uuid) == Some(ui) && FindChallenge(t.challenges, uuid) == Some(ci)
    requires ParseInt(code) == Some(t.challenges[ci].code)
    ensures var r := VerifyCode(t, keys, uuid, code);
      && r.reply == Reply(200, Verified(uuid, t.users[ui].email, keys.sign(t.users[ui])))
      && r.store.users == t.users[ui := t.users[ui].(emailVerified := Some(true))]
      && r.store.challenges == t.challenges[..ci] + t.challenges[ci + 1..]
  {
    assert HasUser(t.users, uuid);
  }

  /** The mailed code verifies a freshly registered account: the account alone is marked
      verified, and the token is signed from the record read before the update. */
  lemma MailedCodeVerifies(s: Store, h: Hasher, keys: JwtKeys, email: string, password: string,
                           fx: Effects, code: string)
    requires Valid(s) && fx.Valid() && fx.delivered && !HasUser(s.users, fx.uuid)
    requires EmailPatternMatches(email) && PasswordPatternMatches(password) && EmailFree(s.users, email)
    requires ParseInt(code) == Some(VerificationCode(fx.draw))
    ensures var r1 := Register(s, h, email, password, fx);
      var r3 := VerifyCode(r1.store, keys, fx.uuid, code);
      var before := RegisteredUser(h, email, password, fx);
      && r3.reply == Reply(200, Verified(fx.uuid, email, keys.sign(before)))
      && r3.store.users == s.users + [before.(emailVerified := Some(true))]
      && r3.store.challenges == s.challenges
  {
    RegisterStore(s, h, email, password, fx);
    VerifyAppended(s, keys, RegisteredUser(h, email, password, fx), Challenge(fx.uuid, VerificationCode(fx.draw), s.loadTime), code);
  }

  /** An account appended to a valid store together with its one challenge: the code of that
      challenge verifies it and leaves exactly the earlier challenges. */
  lemma VerifyAppended(s: Store, keys: JwtKeys, u: User, c: Challenge, code: string)
    requires Valid(s) && !HasUser(s.users, u.uuid) && c.uuid == u.uuid
    requires ParseInt(code) == Some(c.code)
    ensures var r := VerifyCode(Store(s.users + [u], s.challenges + [c], s.loadTime), keys, u.uuid, code);
      && r.reply == Reply(200, Verified(u.uuid, u.email, keys.sign(u)))
      && r.store.users == s.users + [u.(emailVerified := Some(true))]
      && r.store.challenges == s.challenges
  {
    var t := Store(s.users + [u], s.challenges + [c], s.loadTime);
    AppendedAreFound(s, u, c);
    VerifiedStore(t, keys, u.uuid, code, |s.users|, |s.challenges|);
  }

  /** After appending an account with a fresh uuid and its challenge to a valid store, the uuid
      lookups find both, and the neighbours of that challenge are the earlier ones. */
  lemma AppendedAreFound(s: Store, u: User, c: Challenge)
    requires Valid(s) && !HasUser(s.users, u.uuid) && c.uuid == u.uuid
    ensures var t := Store(s.users + [u], s.challenges + [c], s.loadTime);
      && FindUserByUuid(t.users, u.uuid) == Some(|s.users|)
      && FindChallenge(t.challenges, u.uuid) == Some(|s.challenges|)
      && t.challenges[|s.challenges|] == c && t.users[|s.users|] == u
      && t.users[|s.users| := u.(emailVerified := Some(true))] == s.users + [u.(emailVerified := Some(true))]
      && t.challenges[..|s.challenges|] + t.challenges[|s.challenges| + 1..] == s.challenges
  {
    var t := Store(s.users + [u], s.challenges + [c], s.loadTime);
    UserFoundAtEnd(s.users, u);
    FreshUuidHasNoChallenge(s, u.uuid);
    ChallengeFoundAfter(s.challenges, [c], u.uuid);
    assert t.challenges[..|s.challenges|] == s.challenges && t.challenges[|s.challenges| + 1..] == [];
  }

  /** Login on a valid store, for any account that is verified and holds the hash of this
      password, returns a token for that record and changes nothing. */
  lemma LoginOfVerifiedAccount(t: Store, h: Hasher, keys: JwtKeys, password: string, fx: Effects, i: nat)
    requires Valid(t) && h.Sound() && fx.Valid()
    requires i < |t.users|
    requires Truthy(t.users[i].emailVerified) && t.users[i].password.Some?
    requires exists salt :: t.users[i].password.value == h.hash(password, salt)
    ensures var u := t.users[i];
      Login(t, h, keys, u.email, password, fx) ==
        Outcome(t, Reply(200, Session(u.uuid, u.email, u.emailVerified, u.googleId, keys.sign(u))), [])
  {
    var u := t.users[i];
    var found := FindUserByEmail(t.users, u.email);
    assert found == Some(i) by {
      assert found.Some?;
      assert t.users[found.value].email == u.email;
    }
    var salt :| u.password.value == h.hash(password, salt);
    assert h.compare(password, h.hash(password, salt));
  }

  /** The walk-through of a new account: register, a wrong code is refused and changes nothing,
      the mailed code verifies the account (with a token signed from the record as it was before
      the update, so it still says unverified), and then login with the same password returns a
      token that decodes to the verified record. */
  lemma RegisterVerifyLogin(s: Store, h: Hasher, keys: JwtKeys, email: string, password: string,
                            fx: Effects, fx2: Effects, wrong: string)
    requires Valid(s) && h.Sound() && keys.Sound() && fx.Valid() && fx2.Valid()
    requires EmailPatternMatches(email) && PasswordPatternMatches(password) && EmailFree(s.users, email)
    requires fx.delivered && !HasUser(s.users, fx.uuid)
    requires ParseInt(wrong) != Some(VerificationCode(fx.draw))
    ensures var r1 := Register(s, h, email, password, fx);
      var code := VerificationCode(fx.draw);
      var r2 := VerifyCode(r1.store, keys, fx.uuid, wrong);
      var r3 := VerifyCode(r2.store, keys, fx.uuid, IntToString(code));
      var r4 := Login(r3.store, h, keys, email, password, fx2);
      var before := RegisteredUser(h, email, password, fx);
      var after := before.(emailVerified := Some(true));
      && r1.reply == Reply(200, Unverified(fx.uuid, Some(false)))
      && r1.sent == [Mail(email, code)]
      && r2 == Refuse(r1.store, 400, InvalidCode)
      && r3.reply == Reply(200, Verified(fx.uuid, email, keys.sign(before)))
      && keys.verify(keys.sign(before)) == Some(before) && !Truthy(before.emailVerified)
      && r4 == Outcome(r3.store, Reply(200, Session(fx.uuid, email, Some(true), None, keys.sign(after))), [])
      && keys.verify(keys.sign(after)) == Some(after)
  {
    var r1 := Register(s, h, email, password, fx);
    var code := VerificationCode(fx.draw);
    RegisterStore(s, h, email, password, fx);
    var r2 := VerifyCode(r1.store, keys, fx.uuid, wrong);
    assert r2.store == r1.store;
    ParseIntReadsItsPrint(code);
    MailedCodeVerifies(s, h, keys, email, password, fx, IntToString(code));
    var r3 := VerifyCode(r2.store, keys, fx.uuid, IntToString(code));
    var before := RegisteredUser(h, email, password, fx);
    var after := before.(emailVerified := Some(true));
    assert r3.store.users[|s.users|] == after;
    LoginOfVerifiedAccount(r3.store, h, keys, password, fx2, |s.users|);
    assert keys.verify(keys.sign(before)) == Some(before);
    assert keys.verify(keys.sign(after)) == Some(after);
  }

  /** A login before verification mails a second code, but `verifyCode` still compares with
      the first challenge, so that newer code is refused whenever it differs from the first. */
  lemma ResentCodeIsRefused(s: Store, h: Hasher, keys: JwtKeys, email: string, password: string,
                            fx: Effects, fx2: Effects)
    requires Valid(s) && h.Sound() && fx.Valid() && fx2.Valid()
    requires fx.delivered && fx2.delivered && !HasUser(s.users, fx.uuid)
    requires EmailPatternMatches(email) && PasswordPatternMatches(password) && EmailFree(s.users, email)
    requires VerificationCode(fx2.draw) != VerificationCode(fx.draw)
    ensures var r1 := Register(s, h, email, password, fx);
      var r2 := Login(r1.store, h, keys, email, password, fx2);
      && r2.sent == [Mail(email, VerificationCode(fx2.draw))]
      && VerifyCode(r2.store, keys, fx.uuid, IntToString(VerificationCode(fx2.draw))) ==
           Refuse(r2.store, 400, InvalidCode)
  {
    var r1 := Register(s, h, email, password, fx);
    RegisterStore(s, h, email, password, fx);
    LoginOfUnverifiedAccount(r1.store, h, keys, password, fx2, |s.users|);
    var r2 := Login(r1.store, h, keys, email, password, fx2);
    var c1 := Challenge(fx.uuid, VerificationCode(fx.draw), s.loadTime);
    var c2 := Challenge(fx.uuid, VerificationCode(fx2.draw), s.loadTime);
    assert r2.store.challenges == s.challenges + [c1, c2];
    FreshUuidHasNoChallenge(s, fx.uuid);
    ChallengeFoundAfter(s.challenges, [c1, c2], fx.uuid);
    ParseIntReadsItsPrint(VerificationCode(fx2.draw));
  }

  /** Login on a valid store, for any unverified account holding the hash of this password,
      mails a new code to it and appends its challenge, keeping the older ones. */
  lemma LoginOfUnverifiedAccount(t: Store, h: Hasher, keys: JwtKeys, password: string, fx: Effects, i: nat)
    requires Valid(t) && h.Sound() && fx.Valid() && fx.delivered
    requires i < |t.users|
    requires !Truthy(t.users[i].emailVerified) && t.users[i].password.Some?
    requires exists salt :: t.users[i].password.value == h.hash(password, salt)
    ensures var u := t.users[i];
      var r := Login(t, h, keys, u.email, password, fx);
      && r.reply == Reply(200, Unverified(u.uuid, u.emailVerified))
      && r.sent == [Mail(u.email, VerificationCode(fx.draw))]
      && r.store == t.(challenges := t.challenges + [Challenge(u.uuid, VerificationCode(fx.draw), t.loadTime)])
  {
    var u := t.users[i];
    var found := FindUserByEmail(t.users, u.email);
    assert found == Some(i) by {
      assert found.Some?;
      assert t.users[found.value].email == u.email;
    }
    var salt :| u.password.value == h.hash(password, salt);
    assert h.compare(password, h.hash(password, salt));
  }

  /** A Google subject whose email the issuer has not verified: the first login fails with 401
      but creates the account, and every later login with that subject returns a token for the
      still unverified account, creating nothing. */
  lemma UnverifiedGoogleAccountGetsTokenLater(s: Store, keys: JwtKeys, p: Payload, fx: Effects, fx2: Effects)
    requires fx.Valid() && fx2.Valid() && !p.emailVerified
    requires FindUserByGoogleId(s.users, p.sub).None? && EmailFree(s.users, p.email)
    ensures var r1 := GoogleAuth(s, keys, Some(p), fx);
      var r2 := GoogleAuth(r1.store, keys, Some(p), fx2);
      var u := GoogleUser(p, fx);
      && r1.reply == Reply(401, Message(InvalidGoogleToken))
      && r1.store.users == s.users + [u]
      && r2 == Outcome(r1.store, Reply(200, Session(fx.uuid, p.email, Some(false), Some(p.sub), keys.sign(u))), [])
  {
    var r1 := GoogleAuth(s, keys, Some(p), fx);
    var u := GoogleUser(p, fx);
    assert FindUserByGoogleId(r1.store.users, p.sub) == Some(|s.users|) by {
      assert r1.store.users[|s.users|] == u;
      assert forall k :: 0 <= k < |s.users| ==> r1.store.users[k].googleId != Some(p.sub);
    }
  }

  /** Google login is find-or-create: a second login with the same token creates no account. */
  lemma GoogleLoginCreatesAtMostOnce(s: Store, keys: JwtKeys, p: Payload, fx: Effects, fx2: Effects)
    requires fx.Valid() && fx2.Valid()
    ensures var r1 := GoogleAuth(s, keys, Some(p), fx);
      GoogleAuth(r1.store, keys, Some(p), fx2).store.users == r1.store.users
  {
    var r1 := GoogleAuth(s, keys, Some(p), fx);
    if FindUserByGoogleId(s.users, p.sub).None? && EmailFree(s.users, p.email) {
      assert r1.store.users[|s.users|] == GoogleUser(p, fx);
      assert FindUserByGoogleId(r1.store.users, p.sub).Some?;
    } else if FindUserByGoogleId(s.users, p.sub).None? {
      assert r1.store == s;
    }
  }

  /** Fifteen minutes after start-up a single pass of the TTL monitor leaves no challenge, so
      every code, however recently mailed, is answered with "Code has expired". */
  lemma CodesExpireWithTheLoadWindow(s: Store, keys: JwtKeys, uuid: string, code: string, now: int)
    requires Valid(s) && now >= s.loadTime + TtlMillis
    ensures VerifyCode(Reap(s, now), keys, uuid, code) == Refuse(Reap(s, now), 400, CodeExpired)
  {
    ReapAfterLoadWindowEmpties(s, now);
  }

  // ---------------------------------------------------------------------------------------
  // Any sequence of requests

  /** One request to one of the four routes, or a pass of the TTL monitor. */
  datatype Request =
    | RegisterRequest(email: string, password: string, fx: Effects)
    | LoginRequest(email: string, password: string, fx: Effects)
    | VerifyRequest(uuid: string, code: string)
    | GoogleRequest(ticket: Option<Payload>, fx: Effects)
    | MonitorPass(now: int)

  predicate WellFormed(q: Request) {
    (q.RegisterRequest? || q.LoginRequest? || q.GoogleRequest?) ==> q.fx.Valid()
  }

  function Handle(s: Store, h: Hasher, keys: JwtKeys, q: Request): (r: Store)
    requires WellFormed(q)
    ensures Valid(s) ==> Valid(r)
    ensures Extends(s, r)
  {
    match q
    case RegisterRequest(email, password, fx) => Register(s, h, email, password, fx).store
    case LoginRequest(email, password, fx) => Login(s, h, keys, email, password, fx).store
    case VerifyRequest(uuid, code) => VerifyCode(s, keys, uuid, code).store
    case GoogleRequest(ticket, fx) => GoogleAuth(s, keys, ticket, fx).store
    case MonitorPass(now) => Reap(s, now)
  }

  /** The store after the requests, handled one after another. */
  function Run(s: Store, h: Hasher, keys: JwtKeys, qs: seq<Request>): (r: Store)
    requires forall i :: 0 <= i < |qs| ==> WellFormed(qs[i])
    ensures Valid(s) ==> Valid(r)
    ensures Extends(s, r)
    decreases |qs|
  {
    if |qs| == 0 then s
    else
      var next := Handle(s, h, keys, qs[0]);
      var r := Run(next, h, keys, qs[1..]);
      ExtendsTransitive(s, next, r);
      r
  }

  /** Whatever requests arrive, no two accounts ever share an email and every challenge belongs
      to an account, carries a five-digit code and the load-time stamp. */
  lemma NoTwoAccountsShareAnEmail(s: Store, h: Hasher, keys: JwtKeys, qs: seq<Request>, i: int, j: int)
    requires Valid(s)
    requires forall k :: 0 <= k < |qs| ==> WellFormed(qs[k])
    requires 0 <= i < j < |Run(s, h, keys, qs).users|
    ensures Run(s, h, keys, qs).users[i].email != Run(s, h, keys, qs).users[j].email
  {
  }
}
