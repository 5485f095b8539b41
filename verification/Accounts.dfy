/** Registration and email verification by one-time code: the tables, the service functions as they
    run inside a request's session, and the commit rule of the request middleware. */
module Accounts {
  import opened JsonValues
  import opened Text

  datatype User = User(passwordHash: string, verified: bool)

  /** A verification code. Rows are kept in the order of their creation. */
  datatype Code = Code(email: string, hash: string, expiresAt: int, consumedAt: Option<int>, attempts: nat)

  /** The `users` table, by its unique email column, and the `email_verifications` table. */
  datatype Tables = Tables(users: map<string, User>, codes: seq<Code>)

  const EMPTY: Tables := Tables(map[], [])

  /** The settings `otp_max_attempts` and `otp_ttl_minutes`, both at least 1. */
  datatype OtpSettings = OtpSettings(maxAttempts: nat, ttl: nat)
  type Settings = s: OtpSettings | s.maxAttempts >= 1 && s.ttl >= 1 witness OtpSettings(5, 10)

  /** Whether a guess matches a stored hash. */
  type Matcher = (string, string) -> bool

  datatype Request =
    | Register(email: string, passwordHash: string, codeHash: string, now: int)
    | Resend(email: string, codeHash: string, now: int)
    | Verify(email: string, guess: string, now: int)
    | Seed(email: string, passwordHash: string)

  const OK := 200
  const CREATED := 201
  const ACCEPTED := 202
  const CONFLICT := 409
  const UNPROCESSABLE := 422

  function NormalizeEmail(email: string): string {
    Lower(Strip(email))
  }

  predicate IsPending(codes: seq<Code>, i: int, email: string) {
    0 <= i < |codes| && codes[i].email == email && codes[i].consumedAt.None?
  }

  /** The most recently created unconsumed code. */
  function LatestPending(codes: seq<Code>, email: string): (r: Option<nat>)
    ensures r.None? <==> forall i :: !IsPending(codes, i, email)
    ensures r.Some? ==> IsPending(codes, r.value, email) && forall i :: IsPending(codes, i, email) ==> i <= r.value
  {
    if codes == [] then None
    else if IsPending(codes, |codes| - 1, email) then Some(|codes| - 1)
    else
      var front := codes[..|codes| - 1];
      assert forall i :: IsPending(front, i, email) <==> IsPending(codes, i, email);
      LatestPending(front, email)
  }

  /** The bulk update that consumes every unconsumed code of a user. */
  function ConsumePending(codes: seq<Code>, email: string, now: int): (r: seq<Code>)
    ensures |r| == |codes|
    ensures forall i | 0 <= i < |codes| ::
              r[i] == if IsPending(codes, i, email) then codes[i].(consumedAt := Some(now)) else codes[i]
    ensures forall i, e :: IsPending(r, i, e) <==> IsPending(codes, i, e) && e != email
  {
    seq(|codes|, i requires 0 <= i < |codes| =>
      if IsPending(codes, i, email) then codes[i].(consumedAt := Some(now)) else codes[i])
  }

  function FreshCode(email: string, hash: string, now: int, settings: Settings): Code {
    Code(email, hash, now + settings.ttl, None, 0)
  }

  /** Consumes the user's live codes and adds a new one. */
  function Issue(t: Tables, email: string, hash: string, now: int, settings: Settings): Tables {
    t.(codes := ConsumePending(t.codes, email, now) + [FreshCode(email, hash, now, settings)])
  }

  /** Whether the checks that precede the comparison of the guess all pass. */
  predicate Guessable(t: Tables, email: string, now: int, settings: Settings) {
    && email in t.users && !t.users[email].verified
    && var i := LatestPending(t.codes, email);
       i.Some? && now <= t.codes[i.value].expiresAt && t.codes[i.value].attempts < settings.maxAttempts
  }

  /** What a request leaves in the database, and its status. */
  function Respond(t: Tables, request: Request, settings: Settings, matches: Matcher): (Tables, nat) {
    var email := NormalizeEmail(request.email);
    match request
    case Register(_, passwordHash, codeHash, now) =>
      if email in t.users && t.users[email].verified then (t, CONFLICT)
      else (Issue(t.(users := t.users[email := User(passwordHash, false)]), email, codeHash, now, settings), CREATED)
    case Resend(_, codeHash, now) =>
      if email in t.users && !t.users[email].verified then (Issue(t, email, codeHash, now, settings), ACCEPTED)
      else (t, ACCEPTED)
    case Verify(_, guess, now) =>
      if email in t.users && t.users[email].verified then (t, OK)
      else if !Guessable(t, email, now, settings) then (t, UNPROCESSABLE)
      else
        var i := LatestPending(t.codes, email).value;
        if matches(guess, t.codes[i].hash) then
          (Tables(t.users[email := t.users[email].(verified := true)],
                  t.codes[i := t.codes[i].(consumedAt := Some(now))]), OK)
        else (t.(codes := t.codes[i := t.codes[i].(attempts := t.codes[i].attempts + 1)]), UNPROCESSABLE)
    case Seed(_, passwordHash) =>
      if email in t.users then (t, CONFLICT)
      else (t.(users := t.users[email := User(passwordHash, true)]), CREATED)
  }

  /** The committed rows. */
  class Database {
    var users: map<string, User>
    var codes: seq<Code>

    constructor ()
      ensures View() == EMPTY
    {
      users, codes := map[], [];
    }

    function View(): Tables
      reads this
    {
      Tables(users, codes)
    }

    /** The side transaction of a wrong guess: one SQL increment, committed at once. */
    method CountFailedAttempt(id: nat)
      requires id < |codes|
      modifies this`codes
      ensures codes == old(codes)[id := old(codes)[id].(attempts := old(codes)[id].attempts + 1)]
    {
      codes := codes[id := codes[id].(attempts := codes[id].attempts + 1)];
    }
  }

  /** A request's session: its view of the tables, and its uncommitted changes. */
  class Session {
    const db: Database
    var users: map<string, User>
    var codes: seq<Code>

    constructor (db: Database)
      ensures this.db == db && View() == db.View()
    {
      this.db := db;
      users, codes := db.users, db.codes;
    }

    function View(): Tables
      reads this
    {
      Tables(users, codes)
    }

    method IssueOtp(email: string, codeHash: string, now: int, settings: Settings)
      modifies this
      ensures View() == Issue(old(View()), email, codeHash, now, settings)
    {
      codes := ConsumePending(codes, email, now);
      codes := codes + [Code(email, codeHash, now + settings.ttl, None, 0)];
    }

    /** Returns false where the service raises `EmailAlreadyRegistered`. */
    method RegisterUser(rawEmail: string, passwordHash: string, codeHash: string, now: int, settings: Settings)
      returns (registered: bool)
      modifies this
      ensures registered <==> !(NormalizeEmail(rawEmail) in old(users) && old(users)[NormalizeEmail(rawEmail)].verified)
      ensures registered ==>
                View() == Respond(old(View()), Register(rawEmail, passwordHash, codeHash, now), settings, (g, h) => false).0
    {
      var email := NormalizeEmail(rawEmail);
      if email in users {
        if users[email].verified {
          return false;
        }
        users := users[email := users[email].(passwordHash := passwordHash)];
      } else {
        users := users[email := User(passwordHash, false)];
      }
      IssueOtp(email, codeHash, now, settings);
      return true;
    }

    method ResendOtp(rawEmail: string, codeHash: string, now: int, settings: Settings)
      modifies this
      ensures View() == Respond(old(View()), Resend(rawEmail, codeHash, now), settings, (g, h) => false).0
    {
      var email := NormalizeEmail(rawEmail);
      if email in users && !users[email].verified {
        IssueOtp(email, codeHash, now, settings);
      }
    }

    /** Returns false where the service raises `OtpError`. A wrong guess is counted in the committed
        table behind the session's back. */
    method VerifyEmailOtp(rawEmail: string, guess: string, now: int, settings: Settings, matches: Matcher)
      returns (accepted: bool)
      requires View() == db.View()
      modifies this, db`codes
      ensures var r := Respond(old(View()), Verify(rawEmail, guess, now), settings, matches);
              && (accepted <==> r.1 == OK)
              && (accepted ==> View() == r.0 && db.View() == old(db.View()))
              && (!accepted ==> db.View() == r.0)
    {
      var email := NormalizeEmail(rawEmail);
      if email !in users {
        return false;
      }
      if users[email].verified {
        return true;
      }
      var verification := LatestPending(codes, email);
      if verification.None? {
        return false;
      }
      var id := verification.value;
      if codes[id].expiresAt < now {
        return false;
      }
      if codes[id].attempts >= settings.maxAttempts {
        return false;
      }
      if !matches(guess, codes[id].hash) {
        db.CountFailedAttempt(id);
        return false;
      }
      codes := codes[id := codes[id].(consumedAt := Some(now))];
      users := users[email := users[email].(verified := true)];
      return true;
    }

    method SeedUser(rawEmail: string, passwordHash: string) returns (created: bool)
      modifies this
      ensures created <==> NormalizeEmail(rawEmail) !in old(users)
      ensures created ==> View() == Respond(old(View()), Seed(rawEmail, passwordHash), OtpSettings(5, 10), (g, h) => false).0
    {
      var email := NormalizeEmail(rawEmail);
      if email in users {
        return false;
      }
      users := users[email := User(passwordHash, true)];
      return true;
    }

    method Commit()
      modifies db
      ensures db.View() == View()
    {
      db.users, db.codes := users, codes;
    }
  }

  /** The session middleware: run the handler, then commit below status 400 and roll back otherwise,
      which drops the session's rows. */
  method Serve(db: Database, request: Request, settings: Settings, matches: Matcher) returns (status: nat)
    modifies db
    ensures (db.View(), status) == Respond(old(db.View()), request, settings, matches)
  {
    var session := new Session(db);
    match request {
      case Register(email, passwordHash, codeHash, now) =>
        var registered := session.RegisterUser(email, passwordHash, codeHash, now, settings);
        status := if registered then CREATED else CONFLICT;
      case Resend(email, codeHash, now) =>
        session.ResendOtp(email, codeHash, now, settings);
        status := ACCEPTED;
      case Verify(email, guess, now) =>
        var accepted := session.VerifyEmailOtp(email, guess, now, settings, matches);
        status := if accepted then OK else UNPROCESSABLE;
      case Seed(email, passwordHash) =>
        var created := session.SeedUser(email, passwordHash);
        status := if created then CREATED else CONFLICT;
    }
    if status < 400 {
      session.Commit();
    }
  }
}
