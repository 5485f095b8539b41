/** Verification calls that overlap. A call reads and checks a code in one step, and either counts a
    wrong guess or accepts a right one in a later step; other steps may come in between. Codes are
    issued atomically. */
module OtpRace {
  import opened JsonValues
  import opened Accounts

  /** A call between its checks and its write. */
  datatype Phase = Wrong(code: nat) | Right(code: nat, user: string)

  datatype World = World(t: Tables, calls: map<nat, Phase>)

  datatype Step =
    | IssueCode(email: string, hash: string, now: int)
    | Check(call: nat, email: string, guess: string, now: int)
    | Count(call: nat)
    | Accept(call: nat, now: int)

  /** At most `n` calls overlap. A call whose checks fail ends at once and is no step. */
  predicate Enabled(w: World, step: Step, n: nat, settings: Settings) {
    match step
    case IssueCode(email, _, _) => email in w.t.users && !w.t.users[email].verified
    case Check(call, email, _, now) => call !in w.calls && |w.calls| < n && Guessable(w.t, email, now, settings)
    case Count(call) => call in w.calls && w.calls[call].Wrong? && w.calls[call].code < |w.t.codes|
    case Accept(call, _) =>
      call in w.calls && w.calls[call].Right? && w.calls[call].code < |w.t.codes| && w.calls[call].user in w.t.users
  }

  function Next(w: World, step: Step, n: nat, settings: Settings, matches: Matcher): World
    requires Enabled(w, step, n, settings)
  {
    match step
    case IssueCode(email, hash, now) => w.(t := Issue(w.t, email, hash, now, settings))
    case Check(call, email, guess, now) =>
      var i := LatestPending(w.t.codes, email).value;
      w.(calls := w.calls[call := if matches(guess, w.t.codes[i].hash) then Right(i, email) else Wrong(i)])
    case Count(call) =>
      var i := w.calls[call].code;
      World(w.t.(codes := w.t.codes[i := w.t.codes[i].(attempts := w.t.codes[i].attempts + 1)]), w.calls - {call})
    case Accept(call, now) =>
      var i, e := w.calls[call].code, w.calls[call].user;
      World(Tables(w.t.users[e := w.t.users[e].(verified := true)], w.t.codes[i := w.t.codes[i].(consumedAt := Some(now))]),
            w.calls - {call})
  }

  predicate Valid(w: World, trace: seq<Step>, n: nat, settings: Settings, matches: Matcher)
    decreases |trace|
  {
    trace != [] ==>
      Enabled(w, trace[0], n, settings) && Valid(Next(w, trace[0], n, settings, matches), trace[1..], n, settings, matches)
  }

  function Final(w: World, trace: seq<Step>, n: nat, settings: Settings, matches: Matcher): World
    requires Valid(w, trace, n, settings, matches)
    decreases |trace|
  {
    if trace == [] then w else Final(Next(w, trace[0], n, settings, matches), trace[1..], n, settings, matches)
  }

  /** How many wrong guesses at code `i` passed the checks during a run. */
  function WrongGuesses(w: World, trace: seq<Step>, i: nat, n: nat, settings: Settings, matches: Matcher): nat
    requires Valid(w, trace, n, settings, matches)
    decreases |trace|
  {
    if trace == [] then 0
    else
      (if trace[0].Check? && LatestPending(w.t.codes, trace[0].email) == Some(i) && !matches(trace[0].guess, w.t.codes[i].hash)
       then 1 else 0)
      + WrongGuesses(Next(w, trace[0], n, settings, matches), trace[1..], i, n, settings, matches)
  }

  function Attempts(t: Tables, i: nat): nat {
    if i < |t.codes| then t.codes[i].attempts else 0
  }

  /** The calls that will still count a wrong guess at code `i`. */
  function Uncounted(w: World, i: nat): set<nat> {
    set c | c in w.calls && w.calls[c] == Wrong(i)
  }

  /** The counter of each code, plus the wrong guesses not yet counted, stays below the cap plus `n`. */
  predicate Capped(w: World, n: nat, settings: Settings) {
    && |w.calls| <= n
    && (forall c | c in w.calls :: w.calls[c].code < |w.t.codes|)
    && (forall i | 0 <= i < |w.t.codes| :: w.t.codes[i].attempts + |Uncounted(w, i)| <= settings.maxAttempts - 1 + n)
  }

  lemma UncountedBound(w: World, i: nat)
    ensures |Uncounted(w, i)| <= |w.calls|
  {
    SubsetSize(Uncounted(w, i), w.calls.Keys);
  }

  lemma {:induction false} SubsetSize(a: set<nat>, b: set<nat>)
    requires a <= b
    ensures |a| <= |b|
  {
    if a != {} {
      var x :| x in a;
      SubsetSize(a - {x}, b - {x});
    }
  }

  lemma IssueKeepsAttempts(t: Tables, email: string, hash: string, now: int, settings: Settings, i: nat)
    ensures Attempts(Issue(t, email, hash, now, settings), i) == Attempts(t, i)
    ensures |Issue(t, email, hash, now, settings).codes| == |t.codes| + 1
  {
  }

  lemma CheckBalance(w: World, step: Step, i: nat, n: nat, settings: Settings, matches: Matcher)
    requires step.Check? && Enabled(w, step, n, settings)
    ensures var w' := Next(w, step, n, settings, matches);
            var wrong := if LatestPending(w.t.codes, step.email) == Some(i)
                  && !matches(step.guess, w.t.codes[i].hash) then 1 else 0;
            |Uncounted(w', i)| == |Uncounted(w, i)| + wrong && w'.t == w.t
  {
    var w' := Next(w, step, n, settings, matches);
    if w'.calls[step.call] == Wrong(i) {
      assert Uncounted(w', i) == Uncounted(w, i) + {step.call};
    } else {
      assert Uncounted(w', i) == Uncounted(w, i);
    }
  }

  lemma CountBalance(w: World, step: Step, i: nat, n: nat, settings: Settings, matches: Matcher)
    requires step.Count? && Enabled(w, step, n, settings)
    ensures var w' := Next(w, step, n, settings, matches);
            Attempts(w'.t, i) + |Uncounted(w', i)| == Attempts(w.t, i) + |Uncounted(w, i)|
  {
    var w' := Next(w, step, n, settings, matches);
    if w.calls[step.call] == Wrong(i) {
      assert Uncounted(w', i) == Uncounted(w, i) - {step.call};
    } else {
      assert Uncounted(w', i) == Uncounted(w, i);
    }
  }

  lemma StepKeepsCodes(w: World, step: Step, n: nat, settings: Settings, matches: Matcher)
    requires Enabled(w, step, n, settings) && forall c | c in w.calls :: w.calls[c].code < |w.t.codes|
    ensures var w' := Next(w, step, n, settings, matches);
            forall c | c in w'.calls :: w'.calls[c].code < |w'.t.codes|
  {
  }

  /** How one step changes the counters and the wrong guesses in flight. */
  lemma StepBalance(w: World, step: Step, i: nat, n: nat, settings: Settings, matches: Matcher)
    requires Enabled(w, step, n, settings) && forall c | c in w.calls :: w.calls[c].code < |w.t.codes|
    ensures var w' := Next(w, step, n, settings, matches);
            var wrong := if step.Check? && LatestPending(w.t.codes, step.email) == Some(i)
                            && !matches(step.guess, w.t.codes[i].hash) then 1 else 0;
            && Attempts(w'.t, i) + |Uncounted(w', i)| == Attempts(w.t, i) + |Uncounted(w, i)| + wrong
            && (forall c | c in w'.calls :: w'.calls[c].code < |w'.t.codes|)
  {
    StepKeepsCodes(w, step, n, settings, matches);
    var w' := Next(w, step, n, settings, matches);
    match step
    case IssueCode(email, hash, now) =>
      IssueKeepsAttempts(w.t, email, hash, now, settings, i);
      hide Issue;
      assert Uncounted(w', i) == Uncounted(w, i);
    case Check(_, _, _, _) =>
      CheckBalance(w, step, i, n, settings, matches);
    case Count(_) =>
      CountBalance(w, step, i, n, settings, matches);
    case Accept(_, _) =>
      assert Uncounted(w', i) == Uncounted(w, i);
  }

  lemma StepKeepsCap(w: World, step: Step, n: nat, settings: Settings, matches: Matcher)
    requires Capped(w, n, settings) && Enabled(w, step, n, settings)
    ensures Capped(Next(w, step, n, settings, matches), n, settings)
  {
    var w' := Next(w, step, n, settings, matches);
    forall i | 0 <= i < |w'.t.codes|
      ensures w'.t.codes[i].attempts + |Uncounted(w', i)| <= settings.maxAttempts - 1 + n
    {
      StepBalance(w, step, i, n, settings, matches);
      UncountedBound(w', i);
      UncountedBound(w, i);
      if i >= |w.t.codes| {
        assert Uncounted(w, i) == {};
      }
    }
    assert step.Count? || step.Accept? ==> w'.calls.Keys == w.calls.Keys - {step.call};
    assert step.Check? ==> w'.calls.Keys == w.calls.Keys + {step.call};
  }

  /** With at most `n` overlapping calls, no counter ever exceeds the cap plus `n - 1`: not at all,
      when calls do not overlap. */
  lemma {:induction false} AttemptsStayCapped(w: World, trace: seq<Step>, n: nat, settings: Settings, matches: Matcher)
    requires Capped(w, n, settings) && Valid(w, trace, n, settings, matches)
    ensures Capped(Final(w, trace, n, settings, matches), n, settings)
    ensures forall i | 0 <= i < |Final(w, trace, n, settings, matches).t.codes| ::
              Final(w, trace, n, settings, matches).t.codes[i].attempts <= settings.maxAttempts + n - 1
    decreases |trace|
  {
    if trace != [] {
      StepKeepsCap(w, trace[0], n, settings, matches);
      AttemptsStayCapped(Next(w, trace[0], n, settings, matches), trace[1..], n, settings, matches);
    }
  }

  /** No update is lost: every wrong guess that passed the checks is in the counter or still in flight. */
  lemma {:induction false} NoGuessIsLost(w: World, trace: seq<Step>, i: nat, n: nat, settings: Settings, matches: Matcher)
    requires Valid(w, trace, n, settings, matches) && forall c | c in w.calls :: w.calls[c].code < |w.t.codes|
    ensures var w' := Final(w, trace, n, settings, matches);
            Attempts(w'.t, i) + |Uncounted(w', i)| ==
            Attempts(w.t, i) + |Uncounted(w, i)| + WrongGuesses(w, trace, i, n, settings, matches)
    decreases |trace|
  {
    if trace != [] {
      StepBalance(w, trace[0], i, n, settings, matches);
      NoGuessIsLost(Next(w, trace[0], n, settings, matches), trace[1..], i, n, settings, matches);
    }
  }

  /** Verification is not undone by any interleaving. */
  lemma {:induction false} VerifiedStays(w: World, trace: seq<Step>, e: string, n: nat, settings: Settings, matches: Matcher)
    requires Valid(w, trace, n, settings, matches) && e in w.t.users && w.t.users[e].verified
    ensures e in Final(w, trace, n, settings, matches).t.users && Final(w, trace, n, settings, matches).t.users[e].verified
    decreases |trace|
  {
    if trace != [] {
      VerifiedStays(Next(w, trace[0], n, settings, matches), trace[1..], e, n, settings, matches);
    }
  }

  predicate Consumed(w: World, i: nat) {
    i < |w.t.codes| && w.t.codes[i].consumedAt.Some?
  }

  /** Accepting a guess verifies the account, uses the code up and ends the call. */
  lemma AcceptConsumes(w: World, step: Step, n: nat, settings: Settings, matches: Matcher)
    requires step.Accept? && Enabled(w, step, n, settings)
    ensures var w' := Next(w, step, n, settings, matches);
            && Consumed(w', w.calls[step.call].code) && w'.calls == w.calls - {step.call}
            && w'.t.users[w.calls[step.call].user].verified
  {
  }

  /** A code that is used up, by a guess or by the issue of a new one, stays so in every interleaving, and no call
      that starts later takes a guess at it. */
  lemma {:induction false} ConsumedStays(w: World, trace: seq<Step>, i: nat, n: nat, settings: Settings, matches: Matcher)
    requires Valid(w, trace, n, settings, matches) && Consumed(w, i)
    ensures Consumed(Final(w, trace, n, settings, matches), i)
    ensures WrongGuesses(w, trace, i, n, settings, matches) == 0
    decreases |trace|
  {
    if trace != [] {
      ConsumedStays(Next(w, trace[0], n, settings, matches), trace[1..], i, n, settings, matches);
    }
  }

  ghost predicate Reaches(w: World, w': World, n: nat, settings: Settings, matches: Matcher) {
    exists trace :: Valid(w, trace, n, settings, matches) && Final(w, trace, n, settings, matches) == w'
  }

  lemma ReachesItself(w: World, n: nat, settings: Settings, matches: Matcher)
    ensures Reaches(w, w, n, settings, matches)
  {
    assert Valid(w, [], n, settings, matches) && Final(w, [], n, settings, matches) == w;
  }

  lemma ReachesByStep(w: World, step: Step, w': World, n: nat, settings: Settings, matches: Matcher)
    requires Enabled(w, step, n, settings) && Reaches(Next(w, step, n, settings, matches), w', n, settings, matches)
    ensures Reaches(w, w', n, settings, matches)
  {
    var rest :| Valid(Next(w, step, n, settings, matches), rest, n, settings, matches)
                && Final(Next(w, step, n, settings, matches), rest, n, settings, matches) == w';
    assert ([step] + rest)[1..] == rest;
    assert Final(w, [step] + rest, n, settings, matches) == w';
  }

  /** A guess that never matches. */
  function Nothing(): Matcher {
    (guess: string, hash: string) => false
  }

  /** `k` overlapping calls that have all guessed wrong at code 0. */
  function WrongCalls(k: nat): (calls: map<nat, Phase>)
    ensures |calls| == k && forall c: nat :: c in calls <==> c < k
    ensures forall c | c in calls :: calls[c] == Wrong(0)
  {
    if k == 0 then map[] else WrongCalls(k - 1)[k - 1 := Wrong(0)]
  }

  /** One unverified user with one live code, `attempts` counted guesses, and `k` calls about to count another. */
  function Attacked(e: string, code: Code, attempts: nat, k: nat): World {
    World(Tables(map[e := User("", false)], [code.(email := e, consumedAt := None, attempts := attempts)]), WrongCalls(k))
  }

  lemma CheckFromAttacked(e: string, code: Code, attempts: nat, k: nat, n: nat, settings: Settings)
    requires attempts < settings.maxAttempts && k < n
    ensures var w := Attacked(e, code, attempts, k);
            var step := Check(k, e, "", code.expiresAt);
            && Enabled(w, step, n, settings)
            && Next(w, step, n, settings, Nothing()) == Attacked(e, code, attempts, k + 1)
  {
    var w := Attacked(e, code, attempts, k);
    assert IsPending(w.t.codes, 0, e);
    assert LatestPending(w.t.codes, e) == Some(0);
    assert w.calls[k := Wrong(0)] == Attacked(e, code, attempts, k + 1).calls;
  }

  lemma CountFromAttacked(e: string, code: Code, attempts: nat, k: nat, n: nat, settings: Settings)
    requires k > 0
    ensures var w := Attacked(e, code, attempts, k);
            && Enabled(w, Count(k - 1), n, settings)
            && Next(w, Count(k - 1), n, settings, Nothing()) == Attacked(e, code, attempts + 1, k - 1)
  {
    var w := Attacked(e, code, attempts, k);
    assert w.calls - {k - 1} == Attacked(e, code, attempts + 1, k - 1).calls;
  }

  lemma {:induction false} CountsReach(e: string, code: Code, attempts: nat, k: nat, n: nat, settings: Settings)
    ensures Reaches(Attacked(e, code, attempts, k), Attacked(e, code, attempts + k, 0), n, settings, Nothing())
    decreases k
  {
    hide Reaches, Attacked, Enabled, Next;
    if k == 0 {
      ReachesItself(Attacked(e, code, attempts, 0), n, settings, Nothing());
    } else {
      CountFromAttacked(e, code, attempts, k, n, settings);
      CountsReach(e, code, attempts + 1, k - 1, n, settings);
      ReachesByStep(Attacked(e, code, attempts, k), Count(k - 1), Attacked(e, code, attempts + k, 0), n, settings, Nothing());
    }
  }

  lemma {:induction false} ChecksReach(e: string, code: Code, attempts: nat, k: nat, n: nat, settings: Settings)
    requires attempts < settings.maxAttempts && k <= n
    ensures Reaches(Attacked(e, code, attempts, k), Attacked(e, code, attempts + n, 0), n, settings, Nothing())
    decreases n - k
  {
    hide Reaches, Attacked, Enabled, Next;
    if k == n {
      CountsReach(e, code, attempts, n, n, settings);
    } else {
      CheckFromAttacked(e, code, attempts, k, n, settings);
      ChecksReach(e, code, attempts, k + 1, n, settings);
      ReachesByStep(Attacked(e, code, attempts, k), Check(k, e, "", code.expiresAt), Attacked(e, code, attempts + n, 0),
                    n, settings, Nothing());
    }
  }

  /** The bound is tight: `n` overlapping calls can bring the counter to the cap plus `n - 1`. */
  lemma {:induction false} OverlapReachesBound(e: string, code: Code, attempts: nat, n: nat, settings: Settings)
    requires n >= 1 && attempts < settings.maxAttempts
    ensures Reaches(Attacked(e, code, attempts, 0), Attacked(e, code, settings.maxAttempts + n - 1, 0), n, settings, Nothing())
    decreases settings.maxAttempts - attempts
  {
    hide Reaches, Attacked, Enabled, Next;
    if attempts == settings.maxAttempts - 1 {
      ChecksReach(e, code, attempts, 0, n, settings);
    } else {
      var target := Attacked(e, code, settings.maxAttempts + n - 1, 0);
      OverlapReachesBound(e, code, attempts + 1, n, settings);
      CountFromAttacked(e, code, attempts, 1, n, settings);
      ReachesByStep(Attacked(e, code, attempts, 1), Count(0), target, n, settings, Nothing());
      CheckFromAttacked(e, code, attempts, 0, n, settings);
      ReachesByStep(Attacked(e, code, attempts, 0), Check(0, e, "", code.expiresAt), target, n, settings, Nothing());
    }
  }
}
