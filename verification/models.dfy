/** The two collections of api/models/index.js and the constraints their schemas declare:
    users (unique email, nothing else unique) and email-verification challenges (a numeric
    code, a TTL of 15 minutes on `createdAt`). Collections are sequences in insertion order,
    so a lookup on a field that is not unique returns the first match, as `findOne` does on
    MongoDB's natural order, and a position plays the part of the internal `_id`. */
module Models {
  import opened Wrappers

  /** A user document. `googleId` defaults to null; `password` holds the bcrypt hash and is null
      for accounts made by Google login; `emailVerified` has no default, so `None` is a
      document that never had the field. The schema declares no `name`, so mongoose's strict
      mode drops the name a handler passes to `create`. */
  datatype User = User(
    googleId: Option<string>,
    uuid: string,
    email: string,
    password: Option<string>,
    emailVerified: Option<bool>)

  /** An email-verification challenge: the owner's `uuid`, the numeric code and `createdAt`.
      The `expiresAt` the issuer writes is not in the schema and is dropped. */
  datatype Challenge = Challenge(uuid: string, code: int, createdAt: int)

  /** The database, plus the instant (in milliseconds) at which the model module was loaded:
      the `createdAt` default is `Date.now()` evaluated once, at that instant. */
  datatype Store = Store(users: seq<User>, challenges: seq<Challenge>, loadTime: int)

  /** `expires: "15m"` on `createdAt`, in milliseconds. */
  const TtlMillis: int := 15 * 60 * 1000

  /** The range of `Math.floor(10000 + Math.random() * 90000)`. */
  const CodeMin: int := 10000
  const CodeMax: int := 99999

  /** JavaScript truthiness of a stored `emailVerified`: an absent field is falsy. */
  predicate Truthy(flag: Option<bool>) {
    flag == Some(true)
  }

  /** The unique index on `email`. */
  predicate UniqueEmails(users: seq<User>) {
    forall i, j :: 0 <= i < j < |users| ==> users[i].email != users[j].email
  }

  predicate HasUser(users: seq<User>, uuid: string) {
    exists k :: 0 <= k < |users| && users[k].uuid == uuid
  }

  /** A challenge as the issuer writes it: owned by a user, with a five-digit code and the
      load-time `createdAt`. */
  predicate ChallengeOk(s: Store, c: Challenge) {
    HasUser(s.users, c.uuid) && CodeMin <= c.code <= CodeMax && c.createdAt == s.loadTime
  }

  /** The store invariant every handler keeps. It says nothing about `uuid` or `googleId`:
      neither field has a uniqueness constraint. */
  predicate Valid(s: Store) {
    && UniqueEmails(s.users)
    && forall i :: 0 <= i < |s.challenges| ==> ChallengeOk(s, s.challenges[i])
  }

  /** `t` is a later state of `s` as far as accounts go: no account is removed, none changes its
      uuid, email, password or Google subject, and a verified account stays verified. */
  predicate Extends(s: Store, t: Store) {
    && |s.users| <= |t.users|
    && t.loadTime == s.loadTime
    && forall i :: 0 <= i < |s.users| ==>
         && t.users[i].uuid == s.users[i].uuid
         && t.users[i].email == s.users[i].email
         && t.users[i].password == s.users[i].password
         && t.users[i].googleId == s.users[i].googleId
         && (Truthy(s.users[i].emailVerified) ==> Truthy(t.users[i].emailVerified))
  }

  lemma ExtendsTransitive(a: Store, b: Store, c: Store)
    requires Extends(a, b) && Extends(b, c)
    ensures Extends(a, c)
  {
  }

  /** The position of the first element satisfying `p`, as `findOne` returns it. */
  function FindFirst<T>(xs: seq<T>, p: T -> bool): (r: Option<nat>)
    ensures r.Some? ==> r.value < |xs| && p(xs[r.value])
    ensures r.Some? ==> forall k :: 0 <= k < r.value ==> !p(xs[k])
    ensures r.None? ==> forall k :: 0 <= k < |xs| ==> !p(xs[k])
  {
    if |xs| == 0 then None
    else if p(xs[0]) then Some(0)
    else match FindFirst(xs[1..], p)
      case None => None
      case Some(i) => Some(i + 1)
  }

  /** `User.findOne({ email })` */
  function FindUserByEmail(users: seq<User>, email: string): (r: Option<nat>)
    ensures r.Some? ==> r.value < |users| && users[r.value].email == email
    ensures r.None? <==> forall k :: 0 <= k < |users| ==> users[k].email != email
  {
    FindFirst(users, (u: User) => u.email == email)
  }

  /** `User.findOne({ googleId })`: the oldest of possibly several accounts. */
  function FindUserByGoogleId(users: seq<User>, googleId: string): (r: Option<nat>)
    ensures r.Some? ==> r.value < |users| && users[r.value].googleId == Some(googleId)
    ensures r.Some? ==> forall k :: 0 <= k < r.value ==> users[k].googleId != Some(googleId)
    ensures r.None? <==> forall k :: 0 <= k < |users| ==> users[k].googleId != Some(googleId)
  {
    FindFirst(users, (u: User) => u.googleId == Some(googleId))
  }

  /** `User.findOne({ uuid })`: the oldest of possibly several accounts. */
  function FindUserByUuid(users: seq<User>, uuid: string): (r: Option<nat>)
    ensures r.Some? ==> r.value < |users| && users[r.value].uuid == uuid
    ensures r.Some? ==> forall k :: 0 <= k < r.value ==> users[k].uuid != uuid
    ensures r.None? <==> !HasUser(users, uuid)
  {
    FindFirst(users, (u: User) => u.uuid == uuid)
  }

  /** `EmailValidation.findOne({ uuid })`: the oldest challenge of that user. */
  function FindChallenge(challenges: seq<Challenge>, uuid: string): (r: Option<nat>)
    ensures r.Some? ==> r.value < |challenges| && challenges[r.value].uuid == uuid
    ensures r.Some? ==> forall k :: 0 <= k < r.value ==> challenges[k].uuid != uuid
    ensures r.None? <==> forall k :: 0 <= k < |challenges| ==> challenges[k].uuid != uuid
  {
    FindFirst(challenges, (c: Challenge) => c.uuid == uuid)
  }

  datatype StoreError = DuplicateKey

  /** `User.create(u)`: refused with a duplicate-key error when the email is taken, appended
      otherwise, whatever `uuid` and `googleId` other accounts already hold. */
  function CreateUser(s: Store, u: User): (r: Result<Store, StoreError>)
    ensures r.Success? <==> forall k :: 0 <= k < |s.users| ==> s.users[k].email != u.email
    ensures r.Success? ==> r.value.users == s.users + [u]
    ensures r.Success? ==> r.value.challenges == s.challenges && r.value.loadTime == s.loadTime
    ensures r.Success? && Valid(s) ==> Valid(r.value)
  {
    if FindUserByEmail(s.users, u.email).Some? then Failure(DuplicateKey)
    else
      var s' := s.(users := s.users + [u]);
      assert forall c :: HasUser(s.users, c) ==> HasUser(s'.users, c) by {
        forall c | HasUser(s.users, c) ensures HasUser(s'.users, c) {
          var k :| 0 <= k < |s.users| && s.users[k].uuid == c;
          assert s'.users[k] == s.users[k];
        }
      }
      Success(s')
  }

  /** `User.findByIdAndUpdate(id, { emailVerified: true })` */
  function MarkVerified(s: Store, i: nat): (r: Store)
    requires i < |s.users|
    ensures |r.users| == |s.users| && Truthy(r.users[i].emailVerified)
    ensures r.users[i] == s.users[i].(emailVerified := Some(true))
    ensures forall k :: 0 <= k < |s.users| && k != i ==> r.users[k] == s.users[k]
    ensures r.challenges == s.challenges && r.loadTime == s.loadTime
    ensures Valid(s) ==> Valid(r)
  {
    var r := s.(users := s.users[i := s.users[i].(emailVerified := Some(true))]);
    assert forall c :: HasUser(s.users, c) ==> HasUser(r.users, c) by {
      forall c | HasUser(s.users, c) ensures HasUser(r.users, c) {
        var k :| 0 <= k < |s.users| && s.users[k].uuid == c;
        assert r.users[k].uuid == c;
      }
    }
    r
  }

  /** `EmailValidation.findByIdAndDelete(id)`: exactly that document goes, and the others keep
      their natural order, which decides what the next `findOne` returns. */
  function DeleteChallenge(s: Store, i: nat): (r: Store)
    requires i < |s.challenges|
    ensures r.users == s.users && r.loadTime == s.loadTime
    ensures multiset(r.challenges) + multiset{s.challenges[i]} == multiset(s.challenges)
    ensures |r.challenges| + 1 == |s.challenges|
    ensures forall k :: 0 <= k < |r.challenges| ==> r.challenges[k] == s.challenges[if k < i then k else k + 1]
    ensures Valid(s) ==> Valid(r)
  {
    var r := s.(challenges := s.challenges[..i] + s.challenges[i + 1..]);
    RemoveAt(s.challenges, i);
    assert Valid(s) ==> Valid(r) by {
      if Valid(s) {
        forall k | 0 <= k < |r.challenges| ensures ChallengeOk(r, r.challenges[k]) {
          assert ChallengeOk(s, s.challenges[if k < i then k else k + 1]);
        }
      }
    }
    r
  }

  /** Cutting out position `i`: one copy of that element goes and the rest shift down by one
      past `i`, in order. */
  lemma RemoveAt(cs: seq<Challenge>, i: nat)
    requires i < |cs|
    ensures var d := cs[..i] + cs[i + 1..];
      && |d| + 1 == |cs|
      && (forall k :: 0 <= k < |d| ==> d[k] == cs[if k < i then k else k + 1])
      && multiset(d) + multiset{cs[i]} == multiset(cs)
  {
    assert cs == cs[..i] + [cs[i]] + cs[i + 1..];
  }

  /** Deleting the challenge at `i` leaves the ones before it and the ones after it, in order. */
  lemma DeleteKeepsOrder(s: Store, i: nat)
    requires i < |s.challenges|
    ensures DeleteChallenge(s, i).challenges == s.challenges[..i] + s.challenges[i + 1..]
  {
    var r := DeleteChallenge(s, i);
    assert |r.challenges| == |s.challenges[..i] + s.challenges[i + 1..]|;
    forall k | 0 <= k < |r.challenges| ensures r.challenges[k] == (s.challenges[..i] + s.challenges[i + 1..])[k] {
      assert r.challenges[k] == s.challenges[if k < i then k else k + 1];
    }
  }

  /** A challenge the TTL monitor may remove at `now`. */
  predicate Expired(c: Challenge, now: int) {
    now >= c.createdAt + TtlMillis
  }

  /** The challenges still live at `now`, in order. Every live challenge keeps all of its
      copies and every expired one loses all of them; `LiveDistributes` fixes the order. */
  function Live(cs: seq<Challenge>, now: int): (r: seq<Challenge>)
    ensures forall c :: c in r <==> c in cs && !Expired(c, now)
    ensures forall c :: multiset(r)[c] == if Expired(c, now) then 0 else multiset(cs)[c]
  {
    if |cs| == 0 then []
    else
      assert cs == [cs[0]] + cs[1..];
      if Expired(cs[0], now) then Live(cs[1..], now)
      else [cs[0]] + Live(cs[1..], now)
  }

  /** Filtering a concatenation filters each part and keeps them in order: with
      `Live([c]) == []` for an expired `c` and `[c]` otherwise, this determines `Live`. */
  lemma {:induction false} LiveDistributes(a: seq<Challenge>, b: seq<Challenge>, now: int)
    ensures Live(a + b, now) == Live(a, now) + Live(b, now)
  {
    if |a| == 0 {
      assert a + b == b;
    } else {
      assert (a + b)[0] == a[0];
      assert (a + b)[1..] == a[1..] + b;
      LiveDistributes(a[1..], b, now);
    }
  }

  /** When nothing has expired, the live challenges are all of them, in order. */
  lemma {:induction false} NoneExpiredKeepsAll(cs: seq<Challenge>, now: int)
    requires forall k :: 0 <= k < |cs| ==> !Expired(cs[k], now)
    ensures Live(cs, now) == cs
  {
    if |cs| > 0 {
      NoneExpiredKeepsAll(cs[1..], now);
      assert cs == [cs[0]] + cs[1..];
    }
  }

  /** One pass of the TTL monitor at `now`: every expired challenge goes, with all of its
      copies, every live one stays with all of its copies, in their order; users stay. */
  function Reap(s: Store, now: int): (r: Store)
    ensures r.users == s.users && r.loadTime == s.loadTime
    ensures forall c :: c in r.challenges <==> c in s.challenges && !Expired(c, now)
    ensures forall c :: multiset(r.challenges)[c] == if Expired(c, now) then 0 else multiset(s.challenges)[c]
    ensures forall a, b :: s.challenges == a + b ==> r.challenges == Live(a, now) + Live(b, now)
    ensures Valid(s) ==> Valid(r)
    ensures Extends(s, r)
  {
    var r := s.(challenges := Live(s.challenges, now));
    assert forall k :: 0 <= k < |r.challenges| ==> r.challenges[k] in s.challenges;
    forall a, b | s.challenges == a + b ensures r.challenges == Live(a, now) + Live(b, now) {
      LiveDistributes(a, b, now);
    }
    r
  }

  /** Before 15 minutes have passed since load, no challenge has expired, so a monitor pass
      changes nothing. */
  lemma ReapWithinLoadWindowKeepsAll(s: Store, now: int)
    requires Valid(s)
    requires now < s.loadTime + TtlMillis
    ensures Reap(s, now) == s
  {
    forall k | 0 <= k < |s.challenges| ensures !Expired(s.challenges[k], now) {
      assert ChallengeOk(s, s.challenges[k]);
    }
    NoneExpiredKeepsAll(s.challenges, now);
  }

  /** Because every `createdAt` is the load time, the first monitor pass 15 minutes after
      start-up empties the challenge collection, however recently a code was issued. */
  lemma ReapAfterLoadWindowEmpties(s: Store, now: int)
    requires Valid(s)
    requires now >= s.loadTime + TtlMillis
    ensures Reap(s, now).challenges == []
  {
    AllExpiredLeavesNothing(s.challenges, now);
  }

  lemma {:induction false} AllExpiredLeavesNothing(cs: seq<Challenge>, now: int)
    requires forall k :: 0 <= k < |cs| ==> Expired(cs[k], now)
    ensures Live(cs, now) == []
  {
    if |cs| > 0 {
      AllExpiredLeavesNothing(cs[1..], now);
    }
  }
}
