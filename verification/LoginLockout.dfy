/** The counter of failed logins on one account, and the lock it sets.

    Attempts on the account come one after the other. An attempt reads the clock when it looks at the lock, and the
    database reads it again when a failure is written, after the password has been checked. */
module LoginLockout {
  import opened Wrappers

  /** LOGIN_MAX_ATTEMPTS and LOGIN_LOCK_MINUTES, the latter in the unit of the clock */
  datatype Limits = Limits(max: nat, lock: nat)

  predicate ValidLimits(l: Limits) {
    l.max >= 3 && l.lock >= 1
  }

  datatype Account = Account(failed: nat, lockedUntil: Option<int>)

  /** When the lock was looked at, when the result was written, whether the user is active and the password right */
  datatype Attempt = Attempt(at: int, written: int, active: bool, valid: bool)

  datatype Outcome = NotActive | Locked | Failed | Succeeded

  function OutcomeOf(s: Account, a: Attempt): Outcome {
    if !a.active then NotActive
    else if s.lockedUntil.Some? && s.lockedUntil.value > a.at then Locked
    else if a.valid then Succeeded
    else Failed
  }

  function After(l: Limits, s: Account, a: Attempt): Account {
    match OutcomeOf(s, a)
    case NotActive => s
    case Locked => s
    case Succeeded => Account(0, None)
    case Failed => if s.failed + 1 >= l.max then Account(0, Some(a.written + l.lock)) else Account(s.failed + 1, None)
  }

  class LoginAccount {
    const limits: Limits
    var failedLoginAttempts: nat
    var lockedUntil: Option<int>

    constructor (limits: Limits)
      ensures this.limits == limits && State() == Account(0, None)
    {
      this.limits := limits;
      failedLoginAttempts, lockedUntil := 0, None;
    }

    function State(): Account
      reads this
    {
      Account(failedLoginAttempts, lockedUntil)
    }

    method Login(a: Attempt) returns (outcome: Outcome)
      modifies this
      ensures outcome == OutcomeOf(old(State()), a)
      ensures State() == After(limits, old(State()), a)
    {
      if !a.active {
        return NotActive;
      }
      if lockedUntil.Some? && lockedUntil.value > a.at {
        return Locked;
      }
      if !a.valid {
        var attempts := failedLoginAttempts + 1;
        var lock := attempts >= limits.max;
        failedLoginAttempts := if lock then 0 else attempts;
        lockedUntil := if lock then Some(a.written + limits.lock) else None;
        return Failed;
      }
      failedLoginAttempts, lockedUntil := 0, None;
      return Succeeded;
    }
  }

  // ---- Runs of attempts ----

  /** An account, and how many passwords were checked and found wrong */
  datatype Tally = Tally(account: Account, failures: nat)

  function CountOne(l: Limits, t: Tally, a: Attempt): Tally {
    Tally(After(l, t.account, a), t.failures + if OutcomeOf(t.account, a) == Failed then 1 else 0)
  }

  function Count(l: Limits, t: Tally, attempts: seq<Attempt>): Tally {
    if attempts == [] then t else CountOne(l, Count(l, t, attempts[..|attempts| - 1]), attempts[|attempts| - 1])
  }

  function Run(l: Limits, s: Account, attempts: seq<Attempt>): Account {
    Count(l, Tally(s, 0), attempts).account
  }

  function Failures(l: Limits, s: Account, attempts: seq<Attempt>): nat {
    Count(l, Tally(s, 0), attempts).failures
  }

  predicate SuccessFree(l: Limits, s: Account, attempts: seq<Attempt>) {
    forall i :: 0 <= i < |attempts| ==> OutcomeOf(Run(l, s, attempts[..i]), attempts[i]) != Succeeded
  }

  /** One after the other, within the window of the given length that starts at start */
  predicate Serialised(attempts: seq<Attempt>, start: int, length: nat) {
    && (forall i :: 0 <= i < |attempts| ==>
            start <= attempts[i].at <= start + length && attempts[i].at <= attempts[i].written)
    && (forall i :: 0 < i < |attempts| ==> attempts[i - 1].written <= attempts[i].at)
  }

  lemma {:induction false} CounterStaysBelowMax(l: Limits, s: Account, attempts: seq<Attempt>)
    requires ValidLimits(l) && s.failed < l.max
    ensures Run(l, s, attempts).failed < l.max
    decreases |attempts|
  {
    if attempts != [] {
      CounterStaysBelowMax(l, s, attempts[..|attempts| - 1]);
    }
  }

  /** The account after a success-free run with a number of failures in which the lock was set locks times; t is the
      time of the last attempt */
  ghost predicate Rate(l: Limits, initial: nat, start: int, t: int, s: Account, failures: nat, locks: nat) {
    && s.failed < l.max
    && failures + initial == locks * l.max + s.failed
    && start <= t
    && (locks > 0 ==> start + (locks - 1) * l.lock <= t)
    && (locks > 0 && s.failed == 0 ==> s.lockedUntil.Some? && s.lockedUntil.value >= start + locks * l.lock)
    && (locks > 0 && s.failed > 0 ==> start + locks * l.lock <= t)
  }

  lemma RateStep(l: Limits, initial: nat, start: int, t: int, s: Account, failures: nat, locks: nat, a: Attempt)
    returns (locks': nat)
    requires ValidLimits(l) && Rate(l, initial, start, t, s, failures, locks)
    requires t <= a.at <= a.written && OutcomeOf(s, a) != Succeeded
    ensures Rate(l, initial, start, a.at, After(l, s, a), failures + (if OutcomeOf(s, a) == Failed then 1 else 0),
        locks')
  {
    locks' := locks;
    if OutcomeOf(s, a) == Failed && s.failed + 1 >= l.max {
      locks' := locks + 1;
      assert locks' * l.max == locks * l.max + l.max;
      assert locks' * l.lock == locks * l.lock + l.lock;
    }
  }

  lemma {:induction false} RateOfRun(l: Limits, s: Account, attempts: seq<Attempt>, start: int, length: nat)
    returns (locks: nat, t: int)
    requires ValidLimits(l) && s.failed < l.max && Serialised(attempts, start, length) && SuccessFree(l, s, attempts)
    ensures Rate(l, s.failed, start, t, Run(l, s, attempts), Failures(l, s, attempts), locks)
    ensures t == if attempts == [] then start else attempts[|attempts| - 1].at
    decreases |attempts|
  {
    if attempts == [] {
      locks, t := 0, start;
    } else {
      var n := |attempts| - 1;
      var before := attempts[..n];
      WithoutLast(l, s, attempts, start, length);
      locks, t := RateOfRun(l, s, before, start, length);
      locks := RateStep(l, s.failed, start, t, Run(l, s, before), Failures(l, s, before), locks, attempts[n]);
      t := attempts[n].at;
    }
  }

  lemma WithoutLast(l: Limits, s: Account, attempts: seq<Attempt>, start: int, length: nat)
    requires attempts != [] && Serialised(attempts, start, length) && SuccessFree(l, s, attempts)
    ensures var (before, last) := (attempts[..|attempts| - 1], attempts[|attempts| - 1]);
            && Serialised(before, start, length) && SuccessFree(l, s, before)
            && OutcomeOf(Run(l, s, before), last) != Succeeded
            && (before == [] || before[|before| - 1].at <= last.at)
  {
    var n := |attempts| - 1;
    var before := attempts[..n];
    forall i | 0 <= i < n ensures OutcomeOf(Run(l, s, before[..i]), before[i]) != Succeeded {
      assert before[..i] == attempts[..i];
    }
  }

  lemma Product(a: nat, b: nat, max: nat)
    ensures a <= b ==> a * max <= b * max
  {}

  lemma AtMost(k: nat, lock: nat, length: nat)
    requires lock > 0 && k * lock <= length
    ensures k <= length / lock
  {
    var q := length / lock;
    Distribute(q, lock);
    assert length < q * lock + lock;
    Product(q + 1, k, lock);
  }

  /** In any window without a successful login, at most max * (length / lock + 1) wrong passwords are checked. */
  lemma FailureRateIsBounded(l: Limits, s: Account, attempts: seq<Attempt>, start: int, length: nat)
    requires ValidLimits(l) && s.failed < l.max && Serialised(attempts, start, length) && SuccessFree(l, s, attempts)
    ensures Failures(l, s, attempts) <= (length / l.lock + 1) * l.max
  {
    var locks, t := RateOfRun(l, s, attempts, start, length);
    RateBound(l, s.failed, start, t, Run(l, s, attempts), Failures(l, s, attempts), locks, length);
  }

  lemma RateBound(l: Limits, initial: nat, start: int, t: int, s: Account, failures: nat, locks: nat, length: nat)
    requires ValidLimits(l) && Rate(l, initial, start, t, s, failures, locks) && t <= start + length
    ensures failures <= (length / l.lock + 1) * l.max
  {
    if s.failed == 0 {
      assert failures <= locks * l.max;
      if locks > 0 {
        AtMost(locks - 1, l.lock, length);
        Product(locks, length / l.lock + 1, l.max);
      }
    } else {
      Distribute(locks, l.max);
      assert failures <= (locks + 1) * l.max;
      AtMost(locks, l.lock, length);
      Product(locks + 1, length / l.lock + 1, l.max);
    }
  }

  lemma Distribute(k: nat, max: nat)
    ensures (k + 1) * max == k * max + max
  {}

  // ---- The bound is reached ----

  function Wrong(t: int): Attempt {
    Attempt(t, t, true, false)
  }

  /** n wrong passwords at the same time */
  function Burst(t: int, n: nat): seq<Attempt> {
    if n == 0 then [] else Burst(t, n - 1) + [Wrong(t)]
  }

  /** k times x */
  function Times(k: nat, x: nat): nat {
    if k == 0 then 0 else Times(k - 1, x) + x
  }

  lemma {:induction false} TimesIsProduct(k: nat, x: nat)
    ensures Times(k, x) == k * x
    decreases k
  {
    if k > 0 {
      TimesIsProduct(k - 1, x);
      Distribute(k - 1, x);
    }
  }

  /** A burst at the start and one whenever the lock ends, bursts times in all */
  function Siege(l: Limits, start: int, bursts: nat): seq<Attempt> {
    if bursts == 0 then [] else Siege(l, start, bursts - 1) + Burst(start + Times(bursts - 1, l.lock), l.max)
  }

  lemma {:induction false} CountConcat(l: Limits, t: Tally, a: seq<Attempt>, b: seq<Attempt>)
    ensures Count(l, t, a + b) == Count(l, Count(l, t, a), b)
    decreases |b|
  {
    if b == [] {
      assert a + b == a;
    } else {
      var n := |b| - 1;
      CountConcat(l, t, a, b[..n]);
      assert (a + b)[..|a| + n] == a + b[..n];
    }
  }

  lemma CountMore(l: Limits, t: Tally, a: seq<Attempt>, last: Attempt)
    ensures Count(l, t, a + [last]) == CountOne(l, Count(l, t, a), last)
  {
    assert (a + [last])[..|a|] == a;
  }

  function AfterBurst(l: Limits, t: Tally, at: int, n: nat): Tally {
    Tally(if n == 0 then t.account else if n < l.max then Account(n, None) else Account(0, Some(at + l.lock)),
        t.failures + n)
  }

  lemma {:induction false} BurstCounts(l: Limits, t: Tally, at: int, n: nat)
    requires ValidLimits(l) && n <= l.max && t.account.failed == 0
    requires t.account.lockedUntil.Some? ==> t.account.lockedUntil.value <= at
    ensures Count(l, t, Burst(at, n)) == AfterBurst(l, t, at, n)
    decreases n
  {
    if n > 0 {
      BurstCounts(l, t, at, n - 1);
      CountMore(l, t, Burst(at, n - 1), Wrong(at));
    }
  }

  lemma {:induction false} BurstIs(t: int, n: nat)
    ensures |Burst(t, n)| == n && forall i :: 0 <= i < n ==> Burst(t, n)[i] == Wrong(t)
    decreases n
  {
    if n > 0 {
      BurstIs(t, n - 1);
    }
  }

  lemma {:induction false} SiegeCounts(l: Limits, start: int, bursts: nat, attempts: seq<Attempt>)
    requires ValidLimits(l) && attempts == Siege(l, start, bursts)
    ensures Count(l, Tally(Account(0, None), 0), attempts)
            == Tally(Account(0, if bursts == 0 then None else Some(start + Times(bursts, l.lock))),
                Times(bursts, l.max))
    decreases bursts
  {
    if bursts > 0 {
      var before := Siege(l, start, bursts - 1);
      var (at, failures) := (start + Times(bursts - 1, l.lock), Times(bursts - 1, l.max));
      SiegeCounts(l, start, bursts - 1, before);
      OneMoreBurst(l, before, at, failures);
    }
  }

  lemma OneMoreBurst(l: Limits, before: seq<Attempt>, at: int, failures: nat)
    requires ValidLimits(l)
    requires var t := Count(l, Tally(Account(0, None), 0), before);
             t.account.failed == 0 && t.failures == failures
             && (t.account.lockedUntil.Some? ==> t.account.lockedUntil.value <= at)
    ensures Count(l, Tally(Account(0, None), 0), before + Burst(at, l.max))
            == Tally(Account(0, Some(at + l.lock)), failures + l.max)
  {
    var t := Tally(Account(0, None), 0);
    BurstCounts(l, Count(l, t, before), at, l.max);
    CountConcat(l, t, before, Burst(at, l.max));
  }

  /** Wrong passwords, one after the other, from start until at most t */
  predicate Fits(attempts: seq<Attempt>, start: int, t: int)
    requires start <= t
  {
    && Serialised(attempts, start, t - start)
    && (attempts != [] ==> attempts[|attempts| - 1].written <= t)
    && forall a :: a in attempts ==> !a.valid
  }

  lemma {:induction false} SiegeFits(l: Limits, start: int, bursts: nat, attempts: seq<Attempt>)
    requires ValidLimits(l) && bursts > 0 && attempts == Siege(l, start, bursts)
    ensures Fits(attempts, start, start + Times(bursts - 1, l.lock))
    decreases bursts
  {
    var (before, t) := (Siege(l, start, bursts - 1), start + Times(bursts - 1, l.lock));
    assert attempts == before + Burst(t, l.max);
    if bursts == 1 {
      assert before == [] && t == start;
      NothingFits(start);
      FitsMore([], start, start, start, l.max);
    } else {
      SiegeFits(l, start, bursts - 1, before);
      FitsMore(before, start, start + Times(bursts - 2, l.lock), t, l.max);
    }
  }

  lemma NothingFits(start: int)
    ensures Fits([], start, start)
  {}

  lemma FitsMore(attempts: seq<Attempt>, start: int, u: int, t: int, n: nat)
    requires start <= u <= t && Fits(attempts, start, u)
    ensures Fits(attempts + Burst(t, n), start, t)
  {
    BurstIs(t, n);
    var (burst, k) := (Burst(t, n), |attempts|);
    var more := attempts + burst;
    forall i | 0 <= i < |more|
      ensures start <= more[i].at <= more[i].written <= t && !more[i].valid
      ensures i > 0 ==> more[i - 1].written <= more[i].at
    {
      if i < k {
        assert more[i] in attempts;
        NoneLater(attempts, start, u, i);
      } else {
        assert more[i] == burst[i - k];
        assert i > k ==> more[i - 1] == burst[i - 1 - k];
      }
    }
  }

  lemma {:induction false} NoneLater(attempts: seq<Attempt>, start: int, u: int, i: nat)
    requires start <= u && Fits(attempts, start, u) && i < |attempts|
    ensures attempts[i].written <= u
    decreases |attempts| - i
  {
    if i + 1 < |attempts| {
      NoneLater(attempts, start, u, i + 1);
    }
  }

  /** And for every length of the window there is a run of wrong passwords that reaches the bound. */
  lemma BoundIsReached(l: Limits, start: int, length: nat)
    requires ValidLimits(l)
    ensures var attempts := Siege(l, start, length / l.lock + 1);
            && Serialised(attempts, start, length)
            && SuccessFree(l, Account(0, None), attempts)
            && Failures(l, Account(0, None), attempts) == (length / l.lock + 1) * l.max
  {
    RoundDown(length, l.lock);
    SiegeReaches(l, start, length / l.lock, length);
  }

  lemma RoundDown(length: nat, lock: nat)
    requires lock > 0
    ensures length / lock * lock <= length
  {}

  lemma SiegeReaches(l: Limits, start: int, k: nat, length: nat)
    requires ValidLimits(l) && k * l.lock <= length
    ensures var attempts := Siege(l, start, k + 1);
            && Serialised(attempts, start, length)
            && SuccessFree(l, Account(0, None), attempts)
            && Failures(l, Account(0, None), attempts) == (k + 1) * l.max
  {
    var attempts := Siege(l, start, k + 1);
    SiegeFits(l, start, k + 1, attempts);
    SiegeCounts(l, start, k + 1, attempts);
    TimesIsProduct(k, l.lock);
    TimesIsProduct(k + 1, l.max);
    Wider(attempts, start, Times(k, l.lock), length);
    NeverSucceeds(l, Account(0, None), attempts);
  }

  lemma Wider(attempts: seq<Attempt>, start: int, length: nat, longer: nat)
    requires Serialised(attempts, start, length) && length <= longer
    ensures Serialised(attempts, start, longer)
  {}

  lemma NeverSucceeds(l: Limits, s: Account, attempts: seq<Attempt>)
    requires forall a :: a in attempts ==> !a.valid
    ensures SuccessFree(l, s, attempts)
  {
    forall i | 0 <= i < |attempts| ensures OutcomeOf(Run(l, s, attempts[..i]), attempts[i]) != Succeeded {
      assert attempts[i] in attempts;
    }
  }

  // ---- What an attempt meets ----

  lemma RunMore(l: Limits, s: Account, attempts: seq<Attempt>, a: Attempt)
    ensures Run(l, s, attempts + [a]) == After(l, Run(l, s, attempts), a)
  {
    CountMore(l, Tally(s, 0), attempts, a);
  }

  /** Whatever came before, a success leaves the account as a new one: no failures counted and no lock. */
  lemma SuccessStartsAfresh(l: Limits, s: Account, attempts: seq<Attempt>, a: Attempt)
    requires OutcomeOf(Run(l, s, attempts), a) == Succeeded
    ensures Run(l, s, attempts + [a]) == Account(0, None)
  {
    RunMore(l, s, attempts, a);
  }

  /** After max wrong passwords on a new account, even the right one is refused until the lock is over; then it
      succeeds. One wrong password less does not lock. */
  lemma LockHoldsAndEnds(l: Limits, t: int, a: Attempt)
    requires ValidLimits(l) && a.active && t <= a.at
    ensures var locked := Run(l, Account(0, None), Burst(t, l.max));
            && (a.at < t + l.lock ==> OutcomeOf(locked, a) == Locked && After(l, locked, a) == locked)
            && (a.at >= t + l.lock ==> OutcomeOf(locked, a) == if a.valid then Succeeded else Failed)
    ensures OutcomeOf(Run(l, Account(0, None), Burst(t, l.max - 1)), a) == if a.valid then Succeeded else Failed
  {
    BurstCounts(l, Tally(Account(0, None), 0), t, l.max);
    BurstCounts(l, Tally(Account(0, None), 0), t, l.max - 1);
    assert Run(l, Account(0, None), Burst(t, l.max)) == Account(0, Some(t + l.lock));
    assert Run(l, Account(0, None), Burst(t, l.max - 1)) == Account(l.max - 1, None);
  }

  /** The wrong password that makes it max locks from the moment its result is written; an earlier one is counted. */
  lemma WrongPasswordCounts(l: Limits, s: Account, a: Attempt)
    requires OutcomeOf(s, a) == Failed
    ensures After(l, s, a)
            == if s.failed + 1 >= l.max then Account(0, Some(a.written + l.lock)) else Account(s.failed + 1, None)
    ensures a.active && !a.valid
  {
  }

  /** A user who is not active is refused, and nothing is counted. */
  lemma InactiveCountsNothing(l: Limits, s: Account, a: Attempt)
    requires !a.active
    ensures OutcomeOf(s, a) == NotActive && After(l, s, a) == s
  {
  }
}
