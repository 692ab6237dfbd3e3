/** Login lockout: a failure counter and a lock, both with expiry.  Time is in milliseconds. */
module LockoutModel {
  import opened Wrappers
  import opened TimedMaps

  /** Failures allowed and seconds locked. */
  datatype Policy = Policy(threshold: int, seconds: nat)

  /** The failure counter, and the lock holding the instant until which it is locked, in whole seconds. */
  datatype Keys = Keys(failures: Option<Timed<int>>, lock: Option<Timed<int>>)

  datatype Verdict = Disabled | Locked | TooManyFailures | InvalidCredentials | PasswordExpired | Accepted

  predicate LiveAt<T>(key: Option<Timed<T>>, now: int) {
    key.Some? && now < key.value.expires
  }

  /** A text date keeps whole seconds only. */
  function WholeSeconds(ms: int): int { ms / 1000 * 1000 }

  function LockedUntil(p: Policy, now: int): int { WholeSeconds(now + p.seconds * 1000) }

  /** The lock refuses the attempt. */
  predicate Refuses(k: Keys, now: int) {
    LiveAt(k.lock, now) && k.lock.value.value > now
  }

  /** A lock that has run out is removed together with the counter. */
  function CheckStatus(k: Keys, now: int): Keys {
    if LiveAt(k.lock, now) && k.lock.value.value <= now then Keys(None, None) else k
  }

  function HandleFailure(p: Policy, k: Keys, now: int): (Keys, Verdict) {
    if p.threshold == 0 then (k, InvalidCredentials)
    else
      var count := (if LiveAt(k.failures, now) then k.failures.value.value else 0) + 1;
      var expires := now + p.seconds * 1000;
      var counted := k.(failures := Some(Timed(count, expires)));
      if count >= p.threshold
      then (counted.(lock := Some(Timed(LockedUntil(p, now), expires))), TooManyFailures)
      else (counted, InvalidCredentials)
  }

  /** A sign-in attempt: `correct` is what the password check says, `expired` whether the password is too old. */
  datatype Attempt = Attempt(now: int, enabled: bool, correct: bool, expired: bool)

  function UserVerify(p: Policy, k: Keys, a: Attempt): (Keys, Verdict) {
    if !a.enabled then (k, Disabled)
    else if Refuses(k, a.now) then (k, Locked)
    else
      var k' := CheckStatus(k, a.now);
      if !a.correct then HandleFailure(p, k', a.now)
      else if a.expired then (k', PasswordExpired)
      else (Keys(None, None), Accepted)
  }

  /** The password was checked and found wrong. */
  predicate Failed(v: Verdict) { v == TooManyFailures || v == InvalidCredentials }

  function Run(p: Policy, k: Keys, attempts: seq<Attempt>): (Keys, seq<Verdict>) {
    if attempts == [] then (k, [])
    else
      var (k', verdicts) := Run(p, k, attempts[..|attempts| - 1]);
      var (k'', v) := UserVerify(p, k', attempts[|attempts| - 1]);
      (k'', verdicts + [v])
  }

  /** Attempts come one after another. */
  predicate InTime(attempts: seq<Attempt>) {
    forall i, j :: 0 <= i < j < |attempts| ==> attempts[i].now <= attempts[j].now
  }
}

/** What the lockout promises over runs of attempts. */
module LockoutTheorems {
  import opened Wrappers
  import opened TimedMaps
  import opened LockoutModel

  function Allowed(p: Policy): int { if p.threshold > 1 then p.threshold else 1 }

  /** The counter stays within the allowance, and once it is used up the lock lives as long as the counter. */
  ghost predicate Guarded(p: Policy, k: Keys) {
    && (k.failures.Some? ==> 1 <= k.failures.value.value <= Allowed(p))
    && (k.failures.Some? && k.failures.value.value >= p.threshold ==>
          k.lock.Some? && k.lock.value.expires == k.failures.value.expires)
  }

  lemma VerifyKeepsGuard(p: Policy, k: Keys, a: Attempt)
    requires p.threshold != 0 && Guarded(p, k)
    ensures Guarded(p, UserVerify(p, k, a).0)
  {
    hide LockedUntil;
  }

  lemma {:induction false} RunKeepsGuard(p: Policy, attempts: seq<Attempt>)
    requires p.threshold != 0
    ensures Guarded(p, Run(p, Keys(None, None), attempts).0)
  {
    if attempts != [] {
      RunKeepsGuard(p, attempts[..|attempts| - 1]);
      VerifyKeepsGuard(p, Run(p, Keys(None, None), attempts[..|attempts| - 1]).0, attempts[|attempts| - 1]);
    }
  }

  // ---------------------------------------------------------------- failures between resets

  /** Failed checks since the last reset: an accepted sign-in, a lock that ran out, or a counter that expired. */
  function FailuresSinceReset(p: Policy, k: Keys, attempts: seq<Attempt>): nat {
    if attempts == [] then 0
    else
      var most := attempts[..|attempts| - 1];
      var a := attempts[|attempts| - 1];
      var k' := Run(p, k, most).0;
      var before := if a.enabled && !Refuses(k', a.now) && LiveAt(k'.lock, a.now) then 0
          else FailuresSinceReset(p, k, most);
      var v := UserVerify(p, k', a).1;
      if v == Accepted then 0
      else if Failed(v) then 1 + (if LiveAt(CheckStatus(k', a.now).failures, a.now) then before else 0)
      else before
  }

  /** The counter in the store is the number of failed checks since the last reset. */
  lemma {:induction false} CounterCounts(p: Policy, attempts: seq<Attempt>)
    requires p.threshold != 0
    ensures var k := Run(p, Keys(None, None), attempts).0;
      FailuresSinceReset(p, Keys(None, None), attempts) == if k.failures.Some? then k.failures.value.value else 0
  {
    hide LockedUntil;
    if attempts != [] {
      var most := attempts[..|attempts| - 1];
      CounterCounts(p, most);
      RunKeepsGuard(p, most);
      RunKeepsGuard(p, attempts);
    }
  }

  /** At most `threshold` password checks fail between resets, whatever the timing. */
  lemma AtMostThresholdFailures(p: Policy, attempts: seq<Attempt>)
    requires p.threshold > 0
    ensures FailuresSinceReset(p, Keys(None, None), attempts) <= p.threshold
  {
    CounterCounts(p, attempts);
    RunKeepsGuard(p, attempts);
  }

  // ---------------------------------------------------------------- while the lock lives

  /** After the failure that sets the lock, every later attempt for an enabled user is refused without a password
      check exactly until the locked-until instant, and the first one from then on is checked. */
  lemma LockedExactlyUntil(p: Policy, k: Keys, t: int, a: Attempt)
    requires HandleFailure(p, k, t).1 == TooManyFailures && a.enabled
    ensures UserVerify(p, HandleFailure(p, k, t).0, a).1 == Locked <==> a.now < LockedUntil(p, t)
    ensures UserVerify(p, HandleFailure(p, k, t).0, a).1 == Locked ==>
      UserVerify(p, HandleFailure(p, k, t).0, a).0 == HandleFailure(p, k, t).0
    ensures t + p.seconds * 1000 - 1000 < LockedUntil(p, t) <= t + p.seconds * 1000
  {
  }

  /** A whole run of attempts under the lock is refused. */
  lemma {:induction false} AllRefusedWhileLocked(p: Policy, k: Keys, t: int, attempts: seq<Attempt>)
    requires HandleFailure(p, k, t).1 == TooManyFailures
    requires forall a :: a in attempts ==> a.enabled && a.now < LockedUntil(p, t)
    ensures var locked := HandleFailure(p, k, t).0;
      Run(p, locked, attempts).0 == locked && forall v :: v in Run(p, locked, attempts).1 ==> v == Locked
  {
    if attempts != [] {
      var most := attempts[..|attempts| - 1];
      AllRefusedWhileLocked(p, k, t, most);
      LockedExactlyUntil(p, k, t, attempts[|attempts| - 1]);
      hide HandleFailure, LockedUntil;
    }
  }

  /** A failure counts one more than the live counter; it locks exactly when that reaches the threshold.  Counter and
      lock live for the lock time from then on. */
  lemma FailureCounts(p: Policy, k: Keys, now: int)
    requires p.threshold != 0
    ensures var (k', v) := HandleFailure(p, k, now);
      var count := 1 + if k.failures.Some? && now < k.failures.value.expires then k.failures.value.value else 0;
      && (v == TooManyFailures <==> count >= p.threshold) && (v == InvalidCredentials <==> count < p.threshold)
      && k'.failures == Some(Timed(count, now + p.seconds * 1000))
      && (forall t :: LiveAt(k'.failures, t) <==> t < now + p.seconds * 1000)
      && (v == TooManyFailures ==> forall t :: LiveAt(k'.lock, t) <==> t < now + p.seconds * 1000)
      && (v == InvalidCredentials ==> k'.lock == k.lock)
  {
  }

  /** Without a threshold a failure leaves no trace. */
  lemma NoThresholdNoCount(p: Policy, k: Keys, now: int)
    requires p.threshold == 0
    ensures HandleFailure(p, k, now) == (k, InvalidCredentials)
  {
  }

  /** Every attempt for an enabled user is refused exactly until the given instant. */
  ghost predicate LockedOut(p: Policy, k: Keys, until: int) {
    forall a: Attempt :: a.enabled ==> (UserVerify(p, k, a).1 == Locked <==> a.now < until)
  }

  lemma LockedOutUntil(p: Policy, k: Keys, t: int)
    requires HandleFailure(p, k, t).1 == TooManyFailures
    ensures LockedOut(p, HandleFailure(p, k, t).0, LockedUntil(p, t))
  {
    hide HandleFailure, LockedUntil, UserVerify;
    forall a: Attempt | a.enabled
      ensures UserVerify(p, HandleFailure(p, k, t).0, a).1 == Locked <==> a.now < LockedUntil(p, t)
    {
      LockedExactlyUntil(p, k, t, a);
    }
  }

  // ---------------------------------------------------------------- how fast one can guess

  /** A round of guesses lasts at least this long, in milliseconds. */
  function Round(p: Policy): int { p.seconds * 1000 - 999 }

  function Wrong(verdicts: seq<Verdict>): nat {
    if verdicts == [] then 0
    else Wrong(verdicts[..|verdicts| - 1]) + (if Failed(verdicts[|verdicts| - 1]) then 1 else 0)
  }

  /** Guesses so far fall into `rounds` rounds, begun at least a round length apart, with the counter's share in
      the last. */
  ghost predicate Paced(p: Policy, k: Keys, start: int, now: int, wrong: nat, rounds: nat, latest: int) {
    && (rounds == 0 ==> wrong == 0 && k == Keys(None, None))
    && (rounds > 0 ==>
          && k.failures.Some?
          && start + (rounds - 1) * Round(p) <= latest <= now
          && wrong <= (rounds - 1) * Allowed(p) + k.failures.value.value
          && latest + p.seconds * 1000 <= k.failures.value.expires
          && (LiveAt(k.lock, now) ==> k.lock.value.value > k.failures.value.expires - 1000))
  }

  /** One wrong guess at time `now`: at most one more failed check, in this round or a new one. */
  lemma GuessKeepsPace(p: Policy, k: Keys, start: int, before: int, now: int, wrong: nat, rounds: nat, latest: int)
    returns (rounds': nat, latest': int)
    requires p.threshold != 0 && p.seconds > 0 && Guarded(p, k)
    requires Paced(p, k, start, before, wrong, rounds, latest) && start <= before <= now
    ensures var (k', v) := UserVerify(p, k, Attempt(now, true, false, false));
      Paced(p, k', start, now, wrong + (if Failed(v) then 1 else 0), rounds', latest')
  {
    var (k', v) := UserVerify(p, k, Attempt(now, true, false, false));
    rounds', latest' := rounds, latest;
    if Failed(v) && !(rounds > 0 && LiveAt(CheckStatus(k, now).failures, now)) {
      rounds', latest' := rounds + 1, now;
      assert rounds * Round(p) == (rounds - 1) * Round(p) + Round(p);
      assert rounds * Allowed(p) == (rounds - 1) * Allowed(p) + Allowed(p);
    }
  }

  predicate Guesses(attempts: seq<Attempt>) {
    forall a :: a in attempts ==> a.enabled && !a.correct
  }

  lemma {:induction false} RunKeepsPace(p: Policy, attempts: seq<Attempt>) returns (rounds: nat, latest: int)
    requires p.threshold != 0 && p.seconds > 0 && attempts != [] && InTime(attempts) && Guesses(attempts)
    ensures var (k, verdicts) := Run(p, Keys(None, None), attempts);
      Paced(p, k, attempts[0].now, attempts[|attempts| - 1].now, Wrong(verdicts), rounds, latest)
  {
    var last := attempts[|attempts| - 1];
    var most := attempts[..|attempts| - 1];
    RunKeepsGuard(p, most);
    var (k, verdicts) := Run(p, Keys(None, None), most);
    var v := UserVerify(p, k, last).1;
    assert (verdicts + [v])[..|verdicts|] == verdicts;
    assert last in attempts && last == Attempt(last.now, true, false, last.expired);
    WrongIgnoresExpiry(p, k, last);
    hide Paced, Guarded, UserVerify;
    if most == [] {
      assert Paced(p, Keys(None, None), last.now, last.now, 0, 0, 0) by { NothingYet(p, last.now); }
      rounds, latest := GuessKeepsPace(p, k, last.now, last.now, last.now, 0, 0, 0);
    } else {
      var r0, l0 := RunKeepsPace(p, most);
      rounds, latest := GuessKeepsPace(p, k, attempts[0].now, most[|most| - 1].now, last.now, Wrong(verdicts), r0, l0);
    }
  }

  lemma NothingYet(p: Policy, now: int)
    ensures Paced(p, Keys(None, None), now, now, 0, 0, 0)
  {
  }

  lemma WrongIgnoresExpiry(p: Policy, k: Keys, a: Attempt)
    requires a.enabled && !a.correct
    ensures UserVerify(p, k, a) == UserVerify(p, k, Attempt(a.now, true, false, false))
  {
  }

  /** However a guesser times the attempts, the number of passwords tried is at most `threshold` for the first
      moment and `threshold` more for each full round that has gone by. */
  lemma {:induction false} GuessRate(p: Policy, attempts: seq<Attempt>)
    requires p.threshold > 0 && p.seconds > 0 && attempts != [] && InTime(attempts) && Guesses(attempts)
    ensures Wrong(Run(p, Keys(None, None), attempts).1) <=
      p.threshold * (1 + (attempts[|attempts| - 1].now - attempts[0].now) / Round(p))
  {
    var rounds, latest := RunKeepsPace(p, attempts);
    RunKeepsGuard(p, attempts);
    var (k, verdicts) := Run(p, Keys(None, None), attempts);
    var elapsed := attempts[|attempts| - 1].now - attempts[0].now;
    var w := Wrong(verdicts);
    hide Run, Wrong;
    Bound(w, rounds, p.threshold, Round(p), elapsed);
  }

  lemma Bound(w: nat, rounds: nat, threshold: int, round: int, elapsed: int)
    requires threshold > 0 && round > 0 && elapsed >= 0
    requires rounds == 0 ==> w == 0
    requires rounds > 0 ==> (rounds - 1) * round <= elapsed && w <= (rounds - 1) * threshold + threshold
    ensures w <= threshold * (1 + elapsed / round)
  {
    var q := elapsed / round;
    if rounds > 0 {
      QuotientAtLeast(elapsed, round, rounds - 1);
      assert (rounds - 1) * threshold <= q * threshold;
      assert threshold * (1 + q) == q * threshold + threshold;
    } else {
      assert q >= 0;
      assert threshold * (1 + q) >= 0;
    }
  }

  lemma QuotientAtLeast(a: int, m: int, n: nat)
    requires m > 0 && n * m <= a
    ensures a / m >= n
  {
    var q := a / m;
    assert q < n ==> (q + 1) * m <= n * m;
    assert (q + 1) * m == q * m + m;
    assert a == q * m + a % m;
  }
}

/** The password check as it runs, with the two keys of one user. */
module LockoutService {
  import opened Wrappers
  import opened TimedMaps
  import opened LockoutModel
  import opened LockoutTheorems

  class PasswordSecurity {
    const policy: Policy
    var failures: Option<Timed<int>>
    var lock: Option<Timed<int>>

    constructor (policy: Policy)
      ensures this.policy == policy && State() == Keys(None, None)
    {
      this.policy := policy;
      failures, lock := None, None;
    }

    function State(): Keys
      reads this
    {
      Keys(failures, lock)
    }

    method CheckStatus(enabled: bool, now: int) returns (refused: bool, verdict: Verdict)
      modifies this
      ensures refused == (!enabled || Refuses(old(State()), now))
      ensures refused ==> verdict == (if enabled then Locked else Disabled)
      ensures State() == if refused then old(State()) else LockoutModel.CheckStatus(old(State()), now)
      ensures Guarded(policy, old(State())) ==> Guarded(policy, State())
      ensures !refused ==> !LiveAt(lock, now)
    {
      if !enabled { return true, Disabled; }
      if LiveAt(lock, now) {
        if lock.value.value > now { return true, Locked; }
        lock := None;
        failures := None;
      }
      refused, verdict := false, Accepted;
    }

    /** With no live lock the counter stays within the allowance; once it is used up, every later attempt is refused
        until the stated instant. */
    method HandleLoginFailure(now: int) returns (verdict: Verdict)
      modifies this
      ensures (State(), verdict) == HandleFailure(policy, old(State()), now)
      ensures policy.threshold != 0 && Guarded(policy, old(State())) && !LiveAt(old(lock), now) ==>
        Guarded(policy, State())
      ensures verdict == TooManyFailures ==> LockedOut(policy, State(), LockedUntil(policy, now))
    {
      if HandleFailure(policy, State(), now).1 == TooManyFailures { LockedOutUntil(policy, State(), now); }
      hide LockedOut, LockedUntil;
      if policy.threshold == 0 { return InvalidCredentials; }
      var count := if LiveAt(failures, now) then failures.value.value else 0;
      count := count + 1;
      failures := Some(Timed(count, now + policy.seconds * 1000));
      if count >= policy.threshold {
        lock := Some(Timed(LockedUntil(policy, now), now + policy.seconds * 1000));
        return TooManyFailures;
      }
      verdict := InvalidCredentials;
    }

    method HandleLoginSuccess()
      modifies this
      ensures State() == Keys(None, None)
    {
      lock := None;
      failures := None;
    }

    /** The password is looked at only when the user is enabled and no lock refuses; a success clears both keys, and
        the failure that uses up the allowance locks the user out. */
    method Verify(a: Attempt) returns (verdict: Verdict)
      modifies this
      ensures (State(), verdict) == UserVerify(policy, old(State()), a)
      ensures policy.threshold != 0 && Guarded(policy, old(State())) ==> Guarded(policy, State())
      ensures verdict == Locked <==> a.enabled && Refuses(old(State()), a.now)
      ensures verdict == Accepted <==> a.enabled && !Refuses(old(State()), a.now) && a.correct && !a.expired
      ensures verdict == Accepted ==> State() == Keys(None, None)
      ensures verdict == Disabled <==> !a.enabled
      ensures verdict == Disabled || verdict == Locked ==> State() == old(State())
      ensures verdict == PasswordExpired <==> a.enabled && !Refuses(old(State()), a.now) && a.correct && a.expired
      ensures verdict == TooManyFailures ==> LockedOut(policy, State(), LockedUntil(policy, a.now))
    {
      if policy.threshold != 0 && Guarded(policy, State()) { VerifyKeepsGuard(policy, State(), a); }
      hide LockedOut, LockedUntil, Guarded;
      var refused;
      refused, verdict := CheckStatus(a.enabled, a.now);
      if refused { return; }
      if !a.correct {
        verdict := HandleLoginFailure(a.now);
        return;
      }
      if a.expired { return PasswordExpired; }
      HandleLoginSuccess();
      verdict := Accepted;
    }
  }
}
