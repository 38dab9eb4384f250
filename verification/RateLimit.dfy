/** Sliding-window limiter for failed logins, per source address
    (web/api/auth.py). Logins are handled one at a time and the clock never
    goes back. */
module RateLimit {
  import opened Common

  const MAX_ATTEMPTS: nat := 5
  const WINDOW_SECS: real := 60.0

  /** One login request: the clock at the check, whether the server password is
      set, whether the given one is right, and the clock when a failure is recorded. */
  datatype Attempt = Attempt(ip: string, checkedAt: real, configured: bool, correct: bool, recordedAt: real)

  datatype Outcome = TooMany | Misconfigured | WrongPassword | Granted

  // ----- reference: the full failure history -----

  type Failures = map<string, seq<real>>

  function Of(m: Failures, ip: string): seq<real> {
    if ip in m then m[ip] else []
  }

  /** The failures still inside the window at the given time. */
  function Recent(h: seq<real>, now: real): seq<real> {
    if h == [] then []
    else Recent(h[..|h| - 1], now) + (if now - h[|h| - 1] <= WINDOW_SECS then [h[|h| - 1]] else [])
  }

  /** The limiter that keeps everything and filters at each request. */
  function Decide(h: Failures, a: Attempt): Outcome {
    if |Recent(Of(h, a.ip), a.checkedAt)| >= MAX_ATTEMPTS then TooMany
    else if !a.configured then Misconfigured
    else if !a.correct then WrongPassword
    else Granted
  }

  function After(h: Failures, a: Attempt): Failures {
    if Decide(h, a).WrongPassword? then h[a.ip := Of(h, a.ip) + [a.recordedAt]] else h
  }

  /** The history after a whole run of logins. */
  function Run(attempts: seq<Attempt>): Failures {
    if attempts == [] then map[]
    else After(Run(attempts[..|attempts| - 1]), attempts[|attempts| - 1])
  }

  ghost predicate Ordered(h: seq<real>, now: real) {
    && (forall i, j :: 0 <= i < j < |h| ==> h[i] <= h[j])
    && (forall i :: 0 <= i < |h| ==> h[i] <= now)
  }

  /** No window, anywhere in the history, holds more than the allowed failures. */
  ghost predicate NoBurst(h: seq<real>) {
    forall i :: 0 <= i && i + MAX_ATTEMPTS < |h| ==> h[i + MAX_ATTEMPTS] - h[i] > WINDOW_SECS
  }

  lemma {:induction false} RecentIsSuffix(h: seq<real>, k: nat, now: real)
    requires k <= |h|
    requires forall i :: 0 <= i < k ==> now - h[i] > WINDOW_SECS
    requires forall i :: k <= i < |h| ==> now - h[i] <= WINDOW_SECS
    ensures Recent(h, now) == h[k..]
  {
    if h != [] {
      var init := h[..|h| - 1];
      if k == |h| {
        RecentIsSuffix(init, k - 1, now);
      } else {
        RecentIsSuffix(init, k, now);
        assert h[k..] == init[k..] + [h[|h| - 1]];
      }
    }
  }

  /** Where the recent part of an ordered history starts. */
  lemma RecentStart(h: seq<real>, now: real) returns (k: nat)
    requires Ordered(h, now)
    ensures k <= |h| && Recent(h, now) == h[k..]
    ensures forall i :: 0 <= i < k ==> now - h[i] > WINDOW_SECS
    ensures forall i :: k <= i < |h| ==> now - h[i] <= WINDOW_SECS
  {
    k := 0;
    while k < |h| && now - h[k] > WINDOW_SECS
      invariant k <= |h| && forall i :: 0 <= i < k ==> now - h[i] > WINDOW_SECS
    {
      k := k + 1;
    }
    RecentIsSuffix(h, k, now);
  }

  /** A login is refused exactly while the fifth most recent failure is at most
      a window old, which tells when the lockout ends. */
  lemma RefusedIff(h: seq<real>, now: real)
    requires Ordered(h, now)
    ensures |Recent(h, now)| >= MAX_ATTEMPTS <==>
      |h| >= MAX_ATTEMPTS && now - h[|h| - MAX_ATTEMPTS] <= WINDOW_SECS
  {
    var k := RecentStart(h, now);
  }

  lemma FailureKeepsNoBurst(h: seq<real>, checkedAt: real, recordedAt: real)
    requires Ordered(h, checkedAt) && NoBurst(h) && checkedAt <= recordedAt
    requires |Recent(h, checkedAt)| < MAX_ATTEMPTS
    ensures NoBurst(h + [recordedAt]) && Ordered(h + [recordedAt], recordedAt)
  {
    RefusedIff(h, checkedAt);
  }

  /** The clock readings of a run, in order. */
  ghost predicate ClockRuns(attempts: seq<Attempt>) {
    && (forall i :: 0 <= i < |attempts| ==> attempts[i].checkedAt <= attempts[i].recordedAt)
    && (forall i, j :: 0 <= i < j < |attempts| ==> attempts[i].recordedAt <= attempts[j].checkedAt)
  }

  /** After any run of logins, no 60-second window of any address holds more
      than five recorded failures. */
  lemma {:induction false} NeverABurst(attempts: seq<Attempt>, ip: string, now: real)
    requires ClockRuns(attempts)
    requires forall i :: 0 <= i < |attempts| ==> attempts[i].recordedAt <= now
    ensures NoBurst(Of(Run(attempts), ip)) && Ordered(Of(Run(attempts), ip), now)
  {
    if attempts != [] {
      var init, a := attempts[..|attempts| - 1], attempts[|attempts| - 1];
      NeverABurst(init, ip, a.checkedAt);
      if a.ip == ip && Decide(Run(init), a).WrongPassword? {
        FailureKeepsNoBurst(Of(Run(init), ip), a.checkedAt, a.recordedAt);
      }
    }
  }

  // ----- in terms of the attempts and their answers -----

  /** The answer to each attempt of a run. */
  function Answers(attempts: seq<Attempt>): seq<Outcome> {
    if attempts == [] then []
    else
      var init := attempts[..|attempts| - 1];
      Answers(init) + [Decide(Run(init), attempts[|attempts| - 1])]
  }

  /** When an address's wrong passwords were recorded, in order. */
  function Failed(attempts: seq<Attempt>, answers: seq<Outcome>, ip: string): seq<real>
    requires |answers| == |attempts|
  {
    if attempts == [] then []
    else
      var a, n := attempts[|attempts| - 1], |attempts| - 1;
      Failed(attempts[..n], answers[..n], ip) +
      (if a.ip == ip && answers[n].WrongPassword? then [a.recordedAt] else [])
  }

  /** How many of them are at most a minute old. */
  function FailedLately(attempts: seq<Attempt>, answers: seq<Outcome>, ip: string, now: real): nat
    requires |answers| == |attempts|
  {
    if attempts == [] then 0
    else
      var a, n := attempts[|attempts| - 1], |attempts| - 1;
      FailedLately(attempts[..n], answers[..n], ip, now) +
      (if a.ip == ip && answers[n].WrongPassword? && now - a.recordedAt <= 60.0 then 1 else 0)
  }

  lemma {:induction false} AnswersLength(attempts: seq<Attempt>)
    ensures |Answers(attempts)| == |attempts|
    ensures attempts != [] ==> Answers(attempts)[..|attempts| - 1] == Answers(attempts[..|attempts| - 1])
  {
    if attempts != [] { AnswersLength(attempts[..|attempts| - 1]); }
  }

  /** The history is complete: it holds exactly the wrong passwords answered. */
  lemma {:induction false} HistoryIsComplete(attempts: seq<Attempt>, ip: string)
    ensures |Answers(attempts)| == |attempts|
    ensures Of(Run(attempts), ip) == Failed(attempts, Answers(attempts), ip)
  {
    AnswersLength(attempts);
    if attempts != [] {
      HistoryIsComplete(attempts[..|attempts| - 1], ip);
    }
  }

  lemma {:induction false} LatelyIsRecent(attempts: seq<Attempt>, answers: seq<Outcome>, ip: string, now: real)
    requires |answers| == |attempts|
    ensures |Recent(Failed(attempts, answers, ip), now)| == FailedLately(attempts, answers, ip, now)
  {
    if attempts != [] {
      var n := |attempts| - 1;
      LatelyIsRecent(attempts[..n], answers[..n], ip, now);
      var h := Failed(attempts[..n], answers[..n], ip);
      var t := attempts[n].recordedAt;
      assert (h + [t])[..|h|] == h;
      if !(attempts[n].ip == ip && answers[n].WrongPassword?) {
        assert Failed(attempts, answers, ip) == h;
      }
    }
  }

  /** How every attempt after a run is answered: with 5 or more wrong passwords
      of its address in the last 60 seconds it is refused, otherwise by the
      server's and the given password. */
  lemma AnswerIff(attempts: seq<Attempt>, a: Attempt)
    ensures |Answers(attempts)| == |attempts|
    ensures Answers(attempts + [a]) == Answers(attempts) + [
      if FailedLately(attempts, Answers(attempts), a.ip, a.checkedAt) >= 5 then TooMany
      else if !a.configured then Misconfigured
      else if a.correct then Granted
      else WrongPassword]
  {
    HistoryIsComplete(attempts, a.ip);
    LatelyIsRecent(attempts, Answers(attempts), a.ip, a.checkedAt);
    assert (attempts + [a])[..|attempts|] == attempts;
  }

  /** Of six successive wrong passwords answered to an address, the last is
      recorded more than 60 seconds after the first. */
  lemma SixSpanAMinute(attempts: seq<Attempt>, ip: string, now: real, i: nat)
    requires ClockRuns(attempts) && forall k :: 0 <= k < |attempts| ==> attempts[k].recordedAt <= now
    ensures |Answers(attempts)| == |attempts|
    ensures var h := Failed(attempts, Answers(attempts), ip); i + 5 < |h| ==> h[i + 5] - h[i] > 60.0
  {
    NeverABurst(attempts, ip, now);
    HistoryIsComplete(attempts, ip);
  }

  // ----- the limiter with pruned deques -----

  ghost predicate CutAt(h: seq<real>, dq: seq<real>, k: nat, clock: real) {
    k <= |h| && dq == h[k..] && forall i :: 0 <= i < k ==> clock - h[i] > WINDOW_SECS
  }

  /** The deque is the history without a stale beginning. */
  ghost predicate Prunes(h: seq<real>, dq: seq<real>, clock: real) {
    Ordered(h, clock) && exists k: nat :: CutAt(h, dq, k, clock)
  }

  lemma PrunesLater(h: seq<real>, dq: seq<real>, clock: real, now: real)
    requires Prunes(h, dq, clock) && clock <= now
    ensures Prunes(h, dq, now)
  {
    var k: nat :| CutAt(h, dq, k, clock);
    assert CutAt(h, dq, k, now);
  }

  lemma PrunesPush(h: seq<real>, dq: seq<real>, clock: real, now: real)
    requires Prunes(h, dq, clock) && clock <= now
    ensures Prunes(h + [now], dq + [now], now)
  {
    var k: nat :| CutAt(h, dq, k, clock);
    assert (h + [now])[k..] == h[k..] + [now];
    assert CutAt(h + [now], dq + [now], k, now);
  }

  /** Popping one stale failure from the front. */
  lemma PrunesPop(h: seq<real>, dq: seq<real>, now: real)
    requires Prunes(h, dq, now) && dq != [] && now - dq[0] > WINDOW_SECS
    ensures Prunes(h, dq[1..], now)
  {
    var k: nat :| CutAt(h, dq, k, now);
    assert CutAt(h, dq[1..], k + 1, now);
  }

  lemma PrunedIsRecent(h: seq<real>, dq: seq<real>, now: real)
    requires Prunes(h, dq, now) && (dq == [] || now - dq[0] <= WINDOW_SECS)
    ensures dq == Recent(h, now)
  {
    var k: nat :| CutAt(h, dq, k, now);
    RecentIsSuffix(h, k, now);
  }

  ghost predicate Kept(history: Failures, deques: Failures, ip: string, clock: real) {
    Prunes(Of(history, ip), Of(deques, ip), clock)
  }

  ghost predicate AllKept(history: Failures, deques: Failures, clock: real) {
    forall ip :: Kept(history, deques, ip, clock)
  }

  lemma RecentPrunes(h: seq<real>, now: real)
    requires Ordered(h, now)
    ensures Prunes(h, Recent(h, now), now)
  {
    var k := RecentStart(h, now);
    assert CutAt(h, Recent(h, now), k, now);
  }

  lemma KeptLater(history: Failures, deques: Failures, ip: string, clock: real, now: real)
    requires AllKept(history, deques, clock) && clock <= now
    ensures Prunes(Of(history, ip), Of(deques, ip), now)
  {
    assert Kept(history, deques, ip, clock);
    PrunesLater(Of(history, ip), Of(deques, ip), clock, now);
  }

  lemma AllKeptPruned(history: Failures, deques: Failures, ip: string, clock: real, now: real)
    requires AllKept(history, deques, clock) && clock <= now
    ensures AllKept(history, deques[ip := Recent(Of(history, ip), now)], now)
  {
    var deques' := deques[ip := Recent(Of(history, ip), now)];
    forall other ensures Kept(history, deques', other, now) {
      KeptLater(history, deques, other, clock, now);
      RecentPrunes(Of(history, other), now);
    }
  }

  lemma AllKeptPushed(history: Failures, deques: Failures, ip: string, clock: real, now: real)
    requires AllKept(history, deques, clock) && clock <= now
    ensures AllKept(history[ip := Of(history, ip) + [now]], deques[ip := Of(deques, ip) + [now]], now)
  {
    var history', deques' := history[ip := Of(history, ip) + [now]], deques[ip := Of(deques, ip) + [now]];
    forall other ensures Kept(history', deques', other, now) {
      KeptLater(history, deques, other, clock, now);
      PrunesPush(Of(history, other), Of(deques, other), now, now);
    }
  }

  /** Pops stale failures off the front of a deque. */
  method PopStale(deque: seq<real>, now: real, ghost h: seq<real>) returns (dq: seq<real>)
    requires Prunes(h, deque, now)
    ensures dq == Recent(h, now)
  {
    dq := deque;
    while dq != [] && now - dq[0] > WINDOW_SECS
      invariant Prunes(h, dq, now)
      decreases |dq|
    {
      PrunesPop(h, dq, now);
      dq := dq[1..];
    }
    PrunedIsRecent(h, dq, now);
  }

  class Limiter {
    var failedAttempts: map<string, seq<real>>
    ghost var history: Failures
    ghost var clock: real

    ghost predicate Valid()
      reads this
    {
      AllKept(history, failedAttempts, clock)
    }

    constructor (now: real)
      ensures Valid() && history == map[] && clock == now
    {
      failedAttempts := map[];
      history, clock := map[], now;
      new;
      assert CutAt([], [], 0, now);
    }

    /** Prune the address's deque and say whether it is full. */
    method CheckRateLimit(ip: string, now: real) returns (refused: bool)
      requires Valid() && clock <= now
      modifies this
      ensures Valid() && clock == now && history == old(history)
      ensures failedAttempts == old(failedAttempts)[ip := Recent(Of(history, ip), now)]
      ensures refused <==> |Recent(Of(history, ip), now)| >= MAX_ATTEMPTS
    {
      KeptLater(history, failedAttempts, ip, clock, now);
      var dq := PopStale(Of(failedAttempts, ip), now, Of(history, ip));
      AllKeptPruned(history, failedAttempts, ip, clock, now);
      failedAttempts := failedAttempts[ip := dq];
      clock := now;
      return |dq| >= MAX_ATTEMPTS;
    }

    method RecordFailure(ip: string, now: real)
      requires Valid() && clock <= now
      modifies this
      ensures Valid() && clock == now
      ensures history == old(history)[ip := old(Of(history, ip)) + [now]]
      ensures failedAttempts == old(failedAttempts)[ip := old(Of(failedAttempts, ip)) + [now]]
    {
      AllKeptPushed(history, failedAttempts, ip, clock, now);
      failedAttempts := failedAttempts[ip := Of(failedAttempts, ip) + [now]];
      history := history[ip := Of(history, ip) + [now]];
      clock := now;
    }

    /** The pruned limiter answers every login as the full history would. */
    method Login(a: Attempt) returns (outcome: Outcome)
      requires Valid() && clock <= a.checkedAt <= a.recordedAt
      modifies this
      ensures Valid() && clock <= a.recordedAt
      ensures outcome == Decide(old(history), a)
      ensures history == After(old(history), a)
    {
      var refused := CheckRateLimit(a.ip, a.checkedAt);
      if refused { return TooMany; }
      if !a.configured { return Misconfigured; }
      if !a.correct {
        RecordFailure(a.ip, a.recordedAt);
        return WrongPassword;
      }
      return Granted;
    }
  }
}
