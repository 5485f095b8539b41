/** What registering, resending and seeding leave behind, and whose password an account has. */
module Registration {
  import opened JsonValues
  import opened Text
  import opened Accounts
  import opened AccountSafety

  /** Users other than `e` and their codes are as before. */
  ghost predicate OthersUntouched(t: Tables, t': Tables, e: string) {
    && (forall o | o != e :: (o in t'.users <==> o in t.users) && (o in t.users ==> t'.users[o] == t.users[o]))
    && |t.codes| <= |t'.codes|
    && (forall i | 0 <= i < |t.codes| :: t'.codes[i].email == t.codes[i].email)
    && (forall i | 0 <= i < |t.codes| && t.codes[i].email != e :: t'.codes[i] == t.codes[i])
    && (forall i | |t.codes| <= i < |t'.codes| :: t'.codes[i].email == e)
  }

  /** The one live code of `e` is this one, unused so far. */
  ghost predicate LiveCode(t: Tables, e: string, hash: string, expiresAt: int) {
    exists i :: 0 <= i < |t.codes| && t.codes[i] == Code(e, hash, expiresAt, None, 0) &&
      forall j :: IsPending(t.codes, j, e) <==> j == i
  }

  lemma IssueLeavesLiveCode(t: Tables, e: string, hash: string, now: int, settings: Settings)
    ensures LiveCode(Issue(t, e, hash, now, settings), e, hash, now + settings.ttl)
    ensures OthersUntouched(t, Issue(t, e, hash, now, settings), e)
    ensures Issue(t, e, hash, now, settings).users == t.users
  {
    var t' := Issue(t, e, hash, now, settings);
    var n := |t.codes|;
    assert t'.codes[n] == Code(e, hash, now + settings.ttl, None, 0);
    forall j ensures IsPending(t'.codes, j, e) <==> j == n {
      if 0 <= j < n { assert t'.codes[j] == ConsumePending(t.codes, e, now)[j]; }
    }
  }

  /** A registration is accepted exactly for an address that is not verified. It leaves an unverified account with the
      submitted password, whatever it was before, and the submitted code as the only live one, for its whole
      lifetime; everyone else's rows stay as they were. */
  lemma RegistrationReplaces(t: Tables, request: Request, settings: Settings, matches: Matcher)
    requires request.Register?
    ensures var (t', status) := Respond(t, request, settings, matches);
            var e := NormalizeEmail(request.email);
            && (status == CREATED <==> !(e in t.users && t.users[e].verified))
            && (status == CREATED ==>
                  && e in t'.users && t'.users[e] == User(request.passwordHash, false)
                  && LiveCode(t', e, request.codeHash, request.now + settings.ttl)
                  && OthersUntouched(t, t', e))
            && (status != CREATED ==> t' == t)
  {
    var e := NormalizeEmail(request.email);
    hide Issue, NormalizeEmail, LiveCode;
    IssueLeavesLiveCode(t.(users := t.users[e := User(request.passwordHash, false)]), e, request.codeHash, request.now, settings);
  }

  /** A resend gives an unverified account a new code as its only live one, and changes nothing else. */
  lemma ResendReplacesCode(t: Tables, request: Request, settings: Settings, matches: Matcher)
    requires request.Resend?
    ensures var (t', status) := Respond(t, request, settings, matches);
            var e := NormalizeEmail(request.email);
            && t'.users == t.users && OthersUntouched(t, t', e)
            && (if e in t.users && !t.users[e].verified
                then LiveCode(t', e, request.codeHash, request.now + settings.ttl) else t' == t)
  {
    hide Issue, NormalizeEmail, LiveCode;
    IssueLeavesLiveCode(t, NormalizeEmail(request.email), request.codeHash, request.now, settings);
  }

  /** Every request leaves the rows of all other addresses alone. */
  lemma OthersAreUntouched(t: Tables, request: Request, settings: Settings, matches: Matcher)
    ensures OthersUntouched(t, Respond(t, request, settings, matches).0, NormalizeEmail(request.email))
  {
    hide NormalizeEmail;
    match request
    case Register(_, _, _, _) => RegistrationReplaces(t, request, settings, matches);
    case Resend(_, _, _) => ResendReplacesCode(t, request, settings, matches);
    case Verify(_, _, _) =>
    case Seed(_, _) =>
  }

  /** Addresses that differ in case or in surrounding white space are one account. */
  lemma AddressesAreFolded(a: string, b: string)
    requires Lower(Strip(a)) == Lower(Strip(b))
    ensures forall t: Tables, guess, now, settings, matches ::
              Respond(t, Verify(a, guess, now), settings, matches) == Respond(t, Verify(b, guess, now), settings, matches)
    ensures forall t: Tables, hash, code, now, settings, matches ::
              Respond(t, Register(a, hash, code, now), settings, matches) ==
                Respond(t, Register(b, hash, code, now), settings, matches)
  {
  }

  /** The request sets the password of `e`: an accepted registration or seeding. */
  predicate SetsPassword(t: Tables, request: Request, settings: Settings, matches: Matcher, e: string) {
    (request.Register? || request.Seed?) && NormalizeEmail(request.email) == e &&
    Respond(t, request, settings, matches).1 == CREATED
  }

  /** Such a request sets the account's password, and no other request changes it. */
  lemma PasswordStep(t: Tables, request: Request, settings: Settings, matches: Matcher, e: string)
    ensures var t' := Respond(t, request, settings, matches).0;
            && (SetsPassword(t, request, settings, matches, e) ==>
                  e in t'.users && t'.users[e] == User(request.passwordHash, request.Seed?))
            && (!SetsPassword(t, request, settings, matches, e) ==>
                  && (e in t'.users <==> e in t.users)
                  && (e in t.users ==> t'.users[e].passwordHash == t.users[e].passwordHash)
                  && (e in t.users && t.users[e].verified ==> t'.users[e].verified))
  {
    hide NormalizeEmail;
  }

  /** The tables before the request at position `k`. */
  function Before(t: Tables, requests: seq<Request>, k: nat, settings: Settings, matches: Matcher): Tables
    requires k <= |requests|
  {
    Run(t, requests[..k], settings, matches)
  }

  lemma {:induction false} RunLast(t: Tables, requests: seq<Request>, settings: Settings, matches: Matcher)
    requires requests != []
    ensures var n := |requests| - 1;
            Run(t, requests, settings, matches) ==
              Respond(Run(t, requests[..n], settings, matches), requests[n], settings, matches).0
    decreases |requests|
  {
    hide Respond;
    if |requests| > 1 {
      var n := |requests| - 1;
      RunLast(Respond(t, requests[0], settings, matches).0, requests[1..], settings, matches);
      assert requests[1..][..n - 1] == requests[..n][1..];
    } else {
      assert requests[1..] == [];
    }
  }

  lemma BeforePrefix(t: Tables, requests: seq<Request>, n: nat, k: nat, settings: Settings, matches: Matcher)
    requires k <= n <= |requests|
    ensures Before(t, requests[..n], k, settings, matches) == Before(t, requests, k, settings, matches)
  {
    assert requests[..n][..k] == requests[..k];
  }

  /** The password of every account is the one of its last accepted registration or seeding. */
  lemma {:induction false} PasswordIsLastSet(requests: seq<Request>, settings: Settings, matches: Matcher,
        e: string) returns (k: nat)
    requires e in Run(EMPTY, requests, settings, matches).users
    ensures k < |requests| && SetsPassword(Before(EMPTY, requests, k, settings, matches), requests[k], settings, matches, e)
    ensures Run(EMPTY, requests, settings, matches).users[e].passwordHash == requests[k].passwordHash
    ensures forall j | k < j < |requests| ::
              !SetsPassword(Before(EMPTY, requests, j, settings, matches), requests[j], settings, matches, e)
  {
    hide Respond, SetsPassword;
    assert requests != [];
    var n := |requests| - 1;
    var t := Before(EMPTY, requests, n, settings, matches);
    RunLast(EMPTY, requests, settings, matches);
    PasswordStep(t, requests[n], settings, matches, e);
    if SetsPassword(t, requests[n], settings, matches, e) {
      k := n;
    } else {
      k := PasswordIsLastSet(requests[..n], settings, matches, e);
      forall j | 0 <= j < n
        ensures Before(EMPTY, requests[..n], j, settings, matches) == Before(EMPTY, requests, j, settings, matches) {
        BeforePrefix(EMPTY, requests, n, j, settings, matches);
      }
    }
  }

  /** Whoever verifies an address by code verifies the last registration: the verified account has the password
      submitted there, and no other password was ever accepted for it in between. */
  lemma VerifiedByCodeHasLastPassword(requests: seq<Request>, request: Request, settings: Settings, matches: Matcher, e: string)
    returns (k: nat)
    requires var t := Run(EMPTY, requests, settings, matches);
             var t' := Respond(t, request, settings, matches).0;
             request.Verify? && !(e in t.users && t.users[e].verified) && e in t'.users && t'.users[e].verified
    ensures k < |requests| && requests[k].Register? && NormalizeEmail(requests[k].email) == e
    ensures Respond(Before(EMPTY, requests, k, settings, matches), requests[k], settings, matches).1 == CREATED
    ensures Respond(Run(EMPTY, requests, settings, matches), request, settings, matches).0.users[e] ==
            User(requests[k].passwordHash, true)
    ensures forall j | k < j < |requests| ::
              !SetsPassword(Before(EMPTY, requests, j, settings, matches), requests[j], settings, matches, e)
  {
    var t := Run(EMPTY, requests, settings, matches);
    PasswordStep(t, request, settings, matches, e);
    k := PasswordIsLastSet(requests, settings, matches, e);
    hide Respond, Run;
    if requests[k].Seed? {
      SeededStaysVerified(requests, k, settings, matches, e);
      assert false;
    }
  }

  lemma SeededStaysVerified(requests: seq<Request>, k: nat, settings: Settings, matches: Matcher, e: string)
    requires k < |requests| && requests[k].Seed?
    requires SetsPassword(Before(EMPTY, requests, k, settings, matches), requests[k], settings, matches, e)
    ensures e in Run(EMPTY, requests, settings, matches).users && Run(EMPTY, requests, settings, matches).users[e].verified
  {
    hide Respond, Run, SetsPassword, NormalizeEmail;
    var t := Before(EMPTY, requests, k + 1, settings, matches);
    RunLast(EMPTY, requests[..k + 1], settings, matches);
    assert requests[..k + 1][..k] == requests[..k];
    PasswordStep(Before(EMPTY, requests, k, settings, matches), requests[k], settings, matches, e);
    RunOfConcat(EMPTY, requests[..k + 1], requests[k + 1..], settings, matches);
    assert requests == requests[..k + 1] + requests[k + 1..];
    VerifiedAccountIsFinal(t, requests[k + 1..], settings, matches, e);
  }

  lemma {:induction false} RunOfConcat(t: Tables, a: seq<Request>, b: seq<Request>, settings: Settings, matches: Matcher)
    ensures Run(t, a + b, settings, matches) == Run(Run(t, a, settings, matches), b, settings, matches)
    decreases |a|
  {
    hide Respond;
    if a == [] {
      assert a + b == b;
    } else {
      assert (a + b)[1..] == a[1..] + b;
      RunOfConcat(Respond(t, a[0], settings, matches).0, a[1..], b, settings, matches);
    }
  }
}
