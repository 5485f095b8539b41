/** What every serial run of committed account requests keeps. */
module AccountSafety {
  import opened JsonValues
  import opened Text
  import opened Accounts

  /** The tables after a run of requests, one after another. */
  function Run(t: Tables, requests: seq<Request>, settings: Settings, matches: Matcher): Tables
    decreases |requests|
  {
    if requests == [] then t
    else Run(Respond(t, requests[0], settings, matches).0, requests[1..], settings, matches)
  }

  ghost predicate NonePending(codes: seq<Code>, email: string) {
    forall i :: !IsPending(codes, i, email)
  }

  /** The user's newest code, and no other, is live. */
  ghost predicate OnlyNewestPending(codes: seq<Code>, email: string) {
    exists i :: IsPending(codes, i, email) && forall j | 0 <= j < |codes| && codes[j].email == email ::
      j <= i && (IsPending(codes, j, email) ==> j == i)
  }

  /** Codes belong to users, no counter passes the cap, an unverified user has exactly one live code,
      and a verified user has none. */
  ghost predicate Consistent(t: Tables, settings: Settings) {
    && (forall i | 0 <= i < |t.codes| :: t.codes[i].email in t.users && t.codes[i].attempts <= settings.maxAttempts)
    && (forall e | e in t.users && t.users[e].verified :: NonePending(t.codes, e))
    && (forall e | e in t.users && !t.users[e].verified :: OnlyNewestPending(t.codes, e))
  }

  lemma OthersKeepTheirCodes(codes: seq<Code>, codes': seq<Code>, e: string)
    requires |codes| <= |codes'|
    requires forall i | 0 <= i < |codes| ::
               codes'[i].email == codes[i].email && (codes[i].email == e ==> codes'[i].consumedAt == codes[i].consumedAt)
    requires forall i | |codes| <= i < |codes'| :: codes'[i].email != e
    ensures NonePending(codes, e) ==> NonePending(codes', e)
    ensures OnlyNewestPending(codes, e) ==> OnlyNewestPending(codes', e)
  {
    assert forall i :: IsPending(codes', i, e) <==> IsPending(codes, i, e);
  }

  lemma IssueKeepsConsistency(t: Tables, email: string, hash: string, now: int, settings: Settings)
    requires forall i | 0 <= i < |t.codes| :: t.codes[i].email in t.users && t.codes[i].attempts <= settings.maxAttempts
    requires forall e | e in t.users && e != email && t.users[e].verified :: NonePending(t.codes, e)
    requires forall e | e in t.users && e != email && !t.users[e].verified :: OnlyNewestPending(t.codes, e)
    requires email in t.users && !t.users[email].verified
    ensures Consistent(Issue(t, email, hash, now, settings), settings)
  {
    var codes' := Issue(t, email, hash, now, settings).codes;
    assert IsPending(codes', |codes'| - 1, email);
    assert forall j :: IsPending(codes', j, email) ==> j == |codes'| - 1;
    forall e | e in t.users && e != email ensures
      (NonePending(t.codes, e) ==> NonePending(codes', e)) && (OnlyNewestPending(t.codes, e) ==> OnlyNewestPending(codes', e))
    {
      OthersKeepTheirCodes(t.codes, codes', e);
    }
  }

  lemma CountingKeepsConsistency(t: Tables, i: nat, settings: Settings)
    requires Consistent(t, settings) && i < |t.codes| && t.codes[i].attempts < settings.maxAttempts
    ensures Consistent(t.(codes := t.codes[i := t.codes[i].(attempts := t.codes[i].attempts + 1)]), settings)
  {
    var codes' := t.codes[i := t.codes[i].(attempts := t.codes[i].attempts + 1)];
    forall e | e in t.users ensures
      (NonePending(t.codes, e) ==> NonePending(codes', e)) && (OnlyNewestPending(t.codes, e) ==> OnlyNewestPending(codes', e))
    {
      OthersKeepTheirCodes(t.codes, codes', e);
    }
  }

  lemma AcceptingKeepsConsistency(t: Tables, email: string, i: nat, now: int, settings: Settings)
    requires Consistent(t, settings) && email in t.users && IsPending(t.codes, i, email)
    ensures Consistent(Tables(t.users[email := t.users[email].(verified := true)],
                              t.codes[i := t.codes[i].(consumedAt := Some(now))]), settings)
  {
    var codes' := t.codes[i := t.codes[i].(consumedAt := Some(now))];
    forall e | e in t.users && e != email ensures
      (NonePending(t.codes, e) ==> NonePending(codes', e)) && (OnlyNewestPending(t.codes, e) ==> OnlyNewestPending(codes', e))
    {
      OthersKeepTheirCodes(t.codes, codes', e);
    }
    assert forall j :: IsPending(codes', j, email) ==> IsPending(t.codes, j, email) && j != i;
  }

  lemma VerifyKeepsConsistency(t: Tables, request: Request, settings: Settings, matches: Matcher)
    requires Consistent(t, settings) && request.Verify?
    ensures Consistent(Respond(t, request, settings, matches).0, settings)
  {
    hide Consistent;
    var email := NormalizeEmail(request.email);
    if Guessable(t, email, request.now, settings) {
      var i := LatestPending(t.codes, email).value;
      CountingKeepsConsistency(t, i, settings);
      AcceptingKeepsConsistency(t, email, i, request.now, settings);
    }
  }

  lemma RespondKeepsConsistency(t: Tables, request: Request, settings: Settings, matches: Matcher)
    requires Consistent(t, settings)
    ensures Consistent(Respond(t, request, settings, matches).0, settings)
  {
    var email := NormalizeEmail(request.email);
    match request
    case Register(_, passwordHash, codeHash, now) =>
      if !(email in t.users && t.users[email].verified) {
        var t1 := t.(users := t.users[email := User(passwordHash, false)]);
        IssueKeepsConsistency(t1, email, codeHash, now, settings);
      }
    case Resend(_, codeHash, now) =>
      if email in t.users && !t.users[email].verified {
        IssueKeepsConsistency(t, email, codeHash, now, settings);
      }
    case Verify(_, _, _) => VerifyKeepsConsistency(t, request, settings, matches);
    case Seed(_, _) =>
  }

  /** Every reachable state is consistent. */
  lemma {:induction false} ReachableIsConsistent(t: Tables, requests: seq<Request>, settings: Settings, matches: Matcher)
    requires Consistent(t, settings)
    ensures Consistent(Run(t, requests, settings, matches), settings)
    decreases |requests|
  {
    if requests != [] {
      RespondKeepsConsistency(t, requests[0], settings, matches);
      ReachableIsConsistent(Respond(t, requests[0], settings, matches).0, requests[1..], settings, matches);
    }
  }

  lemma EmptyIsConsistent(settings: Settings)
    ensures Consistent(EMPTY, settings)
  {
  }

  /** No run of requests changes a verified account: not its verification, and not its password. */
  lemma {:induction false} VerifiedAccountIsFinal(t: Tables, requests: seq<Request>, settings: Settings, matches: Matcher,
        e: string)
    requires e in t.users && t.users[e].verified
    ensures var t' := Run(t, requests, settings, matches); e in t'.users && t'.users[e] == t.users[e]
    decreases |requests|
  {
    if requests != [] {
      VerifiedAccountIsFinal(Respond(t, requests[0], settings, matches).0, requests[1..], settings, matches, e);
    }
  }

  /** A rejected verification leaves everything as it was, except that a wrong guess at a live,
      unexpired, unexhausted code adds one to that code's counter. */
  lemma RejectedVerifyOnlyCounts(t: Tables, request: Request, settings: Settings, matches: Matcher)
    requires request.Verify? && Respond(t, request, settings, matches).1 >= 400
    ensures var t' := Respond(t, request, settings, matches).0;
            || t' == t
            || exists i :: && 0 <= i < |t.codes|
                           && LatestPending(t.codes, NormalizeEmail(request.email)) == Some(i)
                           && !matches(request.guess, t.codes[i].hash)
                           && t' == t.(codes := t.codes[i := t.codes[i].(attempts := t.codes[i].attempts + 1)])
                           && t'.codes[i].attempts <= settings.maxAttempts
  {
    hide NormalizeEmail, LatestPending;
    if Respond(t, request, settings, matches).0 != t {
      var i := LatestPending(t.codes, NormalizeEmail(request.email)).value;
      assert 0 <= i < |t.codes|;
    }
  }

  /** When a verification is answered `OK`, and with it a session token: for an address verified before whatever
      the guess, and otherwise exactly for a timely matching guess at the newest pending code within the cap. */
  lemma VerifyAnswersOkExactly(t: Tables, request: Request, settings: Settings, matches: Matcher)
    requires request.Verify?
    ensures var e := NormalizeEmail(request.email);
            Respond(t, request, settings, matches).1 == OK <==>
            e in t.users &&
            (t.users[e].verified ||
             exists i :: IsPending(t.codes, i, e) && (forall j | IsPending(t.codes, j, e) :: j <= i) &&
               matches(request.guess, t.codes[i].hash) && request.now <= t.codes[i].expiresAt &&
               t.codes[i].attempts < settings.maxAttempts)
  {
    var e := NormalizeEmail(request.email);
    hide NormalizeEmail, LatestPending;
    var newest := LatestPending(t.codes, e);
    if newest.Some? { assert forall i | IsPending(t.codes, i, e)
          && (forall j | IsPending(t.codes, j, e) :: j <= i) :: i == newest.value; }
  }

  /** Soundness: an account becomes verified only by presenting, in time and within the cap, a guess
      that matches the newest code issued for its address; or by being seeded as verified. */
  lemma VerifiedOnlyByItsCode(t: Tables, request: Request, settings: Settings, matches: Matcher, e: string)
    requires Consistent(t, settings)
    requires !(e in t.users && t.users[e].verified)
    requires var t' := Respond(t, request, settings, matches).0; e in t'.users && t'.users[e].verified
    ensures NormalizeEmail(request.email) == e
    ensures request.Verify? || (request.Seed? && e !in t.users)
    ensures request.Verify? ==>
              exists i :: && IsPending(t.codes, i, e)
                          && (forall j | 0 <= j < |t.codes| && t.codes[j].email == e :: j <= i)
                          && matches(request.guess, t.codes[i].hash)
                          && request.now <= t.codes[i].expiresAt
                          && t.codes[i].attempts < settings.maxAttempts
  {
    if request.Verify? {
      var i := LatestPending(t.codes, e).value;
      assert IsPending(t.codes, i, e);
    }
  }

  /** The tables as far as one user's verification goes are frozen. */
  predicate Exhausted(t: Tables, e: string, settings: Settings) {
    && e in t.users && !t.users[e].verified
    && LatestPending(t.codes, e).Some?
    && t.codes[LatestPending(t.codes, e).value].attempts >= settings.maxAttempts
  }

  /** Once a code's attempts are used up, no further guesses get anywhere: only a new code helps. */
  lemma {:induction false} ExhaustedCodeIsDead(t: Tables, requests: seq<Request>, settings: Settings, matches: Matcher, e: string)
    requires Exhausted(t, e, settings)
    requires forall k | 0 <= k < |requests| :: requests[k].Verify? && NormalizeEmail(requests[k].email) == e
    ensures Run(t, requests, settings, matches) == t
    decreases |requests|
  {
    if requests != [] {
      assert Respond(t, requests[0], settings, matches).0 == t;
      ExhaustedCodeIsDead(t, requests[1..], settings, matches, e);
    }
  }

  /** A wrong guess at a code that may still be tried is rejected and counted, and changes nothing else. */
  lemma WrongGuessIsCounted(t: Tables, request: Request, settings: Settings, matches: Matcher, e: string, i: nat)
    requires request.Verify? && NormalizeEmail(request.email) == e && e in t.users && !t.users[e].verified
    requires LatestPending(t.codes, e) == Some(i) && t.codes[i].attempts < settings.maxAttempts
    requires request.now <= t.codes[i].expiresAt && !matches(request.guess, t.codes[i].hash)
    ensures Respond(t, request, settings, matches) ==
            (t.(codes := t.codes[i := t.codes[i].(attempts := t.codes[i].attempts + 1)]), UNPROCESSABLE)
  {
  }

  /** So many wrong guesses in time use up a code, as the cap allows from where its counter stands; then it is dead. */
  lemma {:induction false} WrongGuessesExhaust(t: Tables, requests: seq<Request>, settings: Settings, matches: Matcher,
        e: string, i: nat)
    requires e in t.users && !t.users[e].verified && LatestPending(t.codes, e) == Some(i)
    requires t.codes[i].attempts + |requests| == settings.maxAttempts
    requires forall k | 0 <= k < |requests| ::
               requests[k].Verify? && NormalizeEmail(requests[k].email) == e && requests[k].now <= t.codes[i].expiresAt
               && !matches(requests[k].guess, t.codes[i].hash)
    ensures Exhausted(Run(t, requests, settings, matches), e, settings)
    decreases |requests|
  {
    hide NormalizeEmail;
    if requests != [] {
      WrongGuessIsCounted(t, requests[0], settings, matches, e, i);
      hide Respond;
      var t' := Respond(t, requests[0], settings, matches).0;
      CountingKeepsPending(t, i, e);
      WrongGuessesExhaust(t', requests[1..], settings, matches, e, i);
    }
  }

  lemma CountingKeepsPending(t: Tables, i: nat, e: string)
    requires LatestPending(t.codes, e) == Some(i)
    ensures LatestPending(t.codes[i := t.codes[i].(attempts := t.codes[i].attempts + 1)], e) == Some(i)
  {
    var codes' := t.codes[i := t.codes[i].(attempts := t.codes[i].attempts + 1)];
    assert forall j :: IsPending(codes', j, e) <==> IsPending(t.codes, j, e);
    assert IsPending(codes', i, e);
  }

  /** Recovery: whatever state an unverified account is in, a resend followed by the new code within
      its lifetime verifies it. */
  lemma ResendThenVerifySucceeds(t: Tables, email: string, codeHash: string, guess: string, sent: int, entered: int,
                                 settings: Settings, matches: Matcher)
    requires var e := NormalizeEmail(email); e in t.users && !t.users[e].verified
    requires matches(guess, codeHash) && entered <= sent + settings.ttl
    ensures var t' := Run(t, [Resend(email, codeHash, sent), Verify(email, guess, entered)], settings, matches);
            && NormalizeEmail(email) in t'.users && t'.users[NormalizeEmail(email)].verified
            && NonePending(t'.codes, NormalizeEmail(email))
  {
    var e := NormalizeEmail(email);
    var requests := [Resend(email, codeHash, sent), Verify(email, guess, entered)];
    var t1 := Respond(t, requests[0], settings, matches).0;
    assert IsPending(t1.codes, |t1.codes| - 1, e);
    assert LatestPending(t1.codes, e) == Some(|t1.codes| - 1);
    var t2 := Respond(t1, requests[1], settings, matches).0;
    assert requests[1..] == [requests[1]] && requests[1..][1..] == [];
    assert Run(t1, requests[1..], settings, matches) == t2;
  }
}
