/** Reconnection of one event stream (event_listener.go). Time is abstract: a
    wait is only its length before jitter. */
module StreamRetry {
  /** How one subscription ended. `stopped` is the context's state afterwards,
      `stoppedInWait` whether it ends during the wait that may follow. */
  datatype Attempt = Attempt(fatal: bool, delivered: nat, stopped: bool, stoppedInWait: bool)

  /** `grow` is the multiplication by the configured factor. */
  datatype Config = Config(maxRetries: nat, initial: nat, maximum: nat, grow: nat -> nat)

  datatype Ending = Running | Stopped | Fatal | GaveUp | StoppedInWait

  /** The attempts since the stream last delivered anything, that one included. */
  function Streak(attempts: seq<Attempt>): nat {
    if attempts == [] then 0
    else if attempts[|attempts| - 1].delivered > 0 then 1
    else Streak(attempts[..|attempts| - 1]) + 1
  }

  /** The wait after a streak of `n` attempts. */
  function Backoff(c: Config, n: nat): nat
    requires n > 0
  {
    if n == 1 then c.initial
    else if c.grow(Backoff(c, n - 1)) < c.maximum then c.grow(Backoff(c, n - 1)) else c.maximum
  }

  /** What ends the loop after the attempts seen so far, if anything does. */
  function EndingOf(c: Config, attempts: seq<Attempt>): Ending
    requires attempts != []
  {
    var last := attempts[|attempts| - 1];
    if last.stopped then Stopped
    else if last.fatal then Fatal
    else if c.maxRetries > 0 && Streak(attempts) > c.maxRetries then GaveUp
    else if last.stoppedInWait then StoppedInWait
    else Running
  }

  /** Observers and errors reported, in order. */
  datatype Report = Disconnected(wait: nat) | Failed

  function ReportsOf(c: Config, attempts: seq<Attempt>): seq<Report> {
    if attempts == [] then [] else
    ReportsOf(c, attempts[..|attempts| - 1]) +
    match EndingOf(c, attempts)
    case Stopped => []
    case Fatal => [Failed]
    case GaveUp => [Failed]
    case StoppedInWait => [Disconnected(Backoff(c, StreakPositive(attempts)))]
    case Running => [Disconnected(Backoff(c, StreakPositive(attempts)))]
  }

  function StreakPositive(attempts: seq<Attempt>): (n: nat)
    requires attempts != []
    ensures n == Streak(attempts) && n > 0
  {
    Streak(attempts)
  }

  /** `runStream` against the attempts the network would produce: it ends at the
      first attempt whose ending is not `Running`. */
  method RunStream(c: Config, attempts: seq<Attempt>) returns (ending: Ending, used: nat, reports: seq<Report>)
    ensures used <= |attempts| && reports == ReportsOf(c, attempts[..used])
    ensures forall k | 0 < k < used :: EndingOf(c, attempts[..k]) == Running
    ensures used > 0 ==> ending == EndingOf(c, attempts[..used])
    ensures ending == Running ==> used == |attempts|
  {
    var backoff, retries := c.initial, 0;
    reports, used, ending := [], 0, Running;
    while used < |attempts|
      invariant used <= |attempts| && retries == Streak(attempts[..used])
      invariant backoff == if used == 0 then c.initial else Next(c, Backoff(c, StreakPositive(attempts[..used])))
      invariant reports == ReportsOf(c, attempts[..used])
      invariant forall k | 0 < k <= used :: EndingOf(c, attempts[..k]) == Running
    {
      ghost var before := attempts[..used];
      var result := attempts[used];
      used := used + 1;
      assert attempts[..used][..used - 1] == before;
      if result.stopped {
        return Stopped, used, reports;
      }
      if result.fatal {
        return Fatal, used, reports + [Failed];
      }
      if result.delivered > 0 {
        retries := 0;
        backoff := c.initial;
      }
      retries := retries + 1;
      if c.maxRetries > 0 && retries > c.maxRetries {
        return GaveUp, used, reports + [Failed];
      }
      assert backoff == Backoff(c, StreakPositive(attempts[..used]));
      reports := reports + [Disconnected(backoff)];
      if result.stoppedInWait {
        return StoppedInWait, used, reports;
      }
      backoff := Next(c, backoff);
    }
  }

  function Next(c: Config, backoff: nat): nat {
    if c.grow(backoff) < c.maximum then c.grow(backoff) else c.maximum
  }

  /** The streak counts back to the last delivery. */
  lemma {:induction false} StreakCountsBack(attempts: seq<Attempt>)
    requires attempts != []
    ensures var n := Streak(attempts);
            && 0 < n <= |attempts|
            && (forall i | |attempts| - n < i < |attempts| :: attempts[i].delivered == 0)
            && (n < |attempts| ==> attempts[|attempts| - n].delivered > 0)
    decreases |attempts|
  {
    var last := |attempts| - 1;
    if attempts[last].delivered == 0 && last > 0 {
      StreakCountsBack(attempts[..last]);
    }
  }

  /** A stream that keeps delivering is never given up: giving up needs as many
      silent attempts in a row as retries are allowed, all after the last
      delivery. */
  lemma GivingUpExactly(c: Config, attempts: seq<Attempt>)
    requires attempts != []
    ensures EndingOf(c, attempts) == GaveUp <==>
            && !attempts[|attempts| - 1].stopped && !attempts[|attempts| - 1].fatal
            && 0 < c.maxRetries < |attempts|
            && forall i | |attempts| - c.maxRetries <= i < |attempts| :: attempts[i].delivered == 0
  {
    StreakCountsBack(attempts);
    var n := Streak(attempts);
    if c.maxRetries < |attempts| && n <= c.maxRetries && n < |attempts| {
      assert attempts[|attempts| - n].delivered > 0;
    }
  }

  /** The other endings: a stopped context before anything else, then a fatal
      error, and a context that ends during the wait only where another attempt
      would follow. */
  lemma OtherEndings(c: Config, attempts: seq<Attempt>)
    requires attempts != []
    ensures var last, ending := attempts[|attempts| - 1], EndingOf(c, attempts);
            && (ending == Stopped <==> last.stopped)
            && (ending == Fatal <==> last.fatal && !last.stopped)
            && (last.stoppedInWait ==> ending != Running)
            && (ending == StoppedInWait ==> last.stoppedInWait)
  {
  }

  /** Waits never exceed the larger of the first wait and the cap, and a
      delivery brings the wait back to the first. */
  lemma {:induction false} BackoffIsCapped(c: Config, attempts: seq<Attempt>)
    requires attempts != []
    ensures Backoff(c, StreakPositive(attempts)) <= if c.initial > c.maximum then c.initial else c.maximum
    ensures attempts[|attempts| - 1].delivered > 0 ==> Backoff(c, StreakPositive(attempts)) == c.initial
  {
    CappedAt(c, StreakPositive(attempts));
  }

  lemma {:induction false} CappedAt(c: Config, n: nat)
    requires n > 0
    ensures n == 1 ==> Backoff(c, n) == c.initial
    ensures n > 1 ==> Backoff(c, n) <= c.maximum
  {
  }

  /** Each run reports an error at most once, as its last report. */
  lemma {:induction false} FailsOnce(c: Config, attempts: seq<Attempt>)
    requires forall k | 0 < k < |attempts| :: EndingOf(c, attempts[..k]) == Running
    ensures forall i | 0 <= i < |ReportsOf(c, attempts)| ::
              ReportsOf(c, attempts)[i].Failed? ==>
                i == |ReportsOf(c, attempts)| - 1 &&
                attempts != [] && (EndingOf(c, attempts) == Fatal || EndingOf(c, attempts) == GaveUp)
    decreases |attempts|
  {
    if attempts != [] {
      var init := attempts[..|attempts| - 1];
      forall k | 0 < k <= |init|
        ensures EndingOf(c, init[..k]) == Running
      {
        assert init[..k] == attempts[..k];
      }
      assert init == [] || (init[..|init|] == init && EndingOf(c, init) == Running);
      FailsOnce(c, init);
    }
  }

  /** After a run that is still going: one report per attempt, each of a wait. The
      wait is the first one at the start and after a delivery, else the one before,
      grown up to the cap. */
  predicate Waits(c: Config, attempts: seq<Attempt>, reports: seq<Report>) {
    |reports| == |attempts| && forall i | 0 <= i < |reports| :: WaitAt(c, attempts, reports, i)
  }

  predicate WaitAt(c: Config, attempts: seq<Attempt>, reports: seq<Report>, i: nat)
    requires i < |reports| == |attempts|
  {
    if i == 0 || attempts[i].delivered > 0 then reports[i] == Disconnected(c.initial)
    else reports[i - 1].Disconnected? && reports[i] == Disconnected(Grown(c, reports[i - 1].wait))
  }

  function Grown(c: Config, wait: nat): nat {
    if c.grow(wait) > c.maximum then c.maximum else c.grow(wait)
  }

  /** What is reported: the waits of the attempts after which the loop went on, and
      of one whose wait was cut short; a failure where the last attempt is fatal or
      one too many; nothing more where the context was stopped. */
  lemma {:induction false} ReportsExactly(c: Config, attempts: seq<Attempt>)
    requires attempts != [] && forall k | 0 < k < |attempts| :: EndingOf(c, attempts[..k]) == Running
    ensures var init, reports, ending := attempts[..|attempts| - 1], ReportsOf(c, attempts), EndingOf(c, attempts);
            && (ending == Running || ending == StoppedInWait ==> Waits(c, attempts, reports))
            && (ending == Fatal || ending == GaveUp ==>
                  exists waits :: reports == waits + [Failed] && Waits(c, init, waits))
            && (ending == Stopped ==> Waits(c, init, reports))
    decreases |attempts|
  {
    hide EndingOf, Waits;
    var init := attempts[..|attempts| - 1];
    var before := ReportsOf(c, init);
    if init == [] {
      WaitsForNone(c);
      assert before == [];
    } else {
      forall k | 0 < k < |init|
        ensures EndingOf(c, init[..k]) == Running
      {
        assert init[..k] == attempts[..k];
      }
      ReportsExactly(c, init);
      LastWait(c, init);
    }
    OneMoreWait(c, attempts, before);
    if EndingOf(c, attempts) == Stopped {
      assert ReportsOf(c, attempts) == before;
    }
  }

  lemma WaitsForNone(c: Config)
    ensures Waits(c, [], [])
  {
  }

  lemma LastWait(c: Config, attempts: seq<Attempt>)
    requires attempts != [] && EndingOf(c, attempts) == Running
    ensures ReportsOf(c, attempts) ==
            ReportsOf(c, attempts[..|attempts| - 1]) + [Disconnected(Backoff(c, StreakPositive(attempts)))]
  {
  }

  lemma OneMoreWait(c: Config, attempts: seq<Attempt>, before: seq<Report>)
    requires attempts != [] && Waits(c, attempts[..|attempts| - 1], before)
    requires var init := attempts[..|attempts| - 1];
             init != [] ==> before != [] && before[|before| - 1] == Disconnected(Backoff(c, StreakPositive(init)))
    ensures Waits(c, attempts, before + [Disconnected(Backoff(c, StreakPositive(attempts)))])
  {
    hide EndingOf, ReportsOf;
    var last := |attempts| - 1;
    var init, wait := attempts[..last], Backoff(c, StreakPositive(attempts));
    var reports := before + [Disconnected(wait)];
    if last == 0 {
      assert init == [];
      assert Streak(init) == 0;
      assert StreakPositive(attempts) == 1;
    } else if attempts[last].delivered == 0 {
      assert StreakPositive(attempts) == StreakPositive(init) + 1;
    }
    forall i | 0 <= i < |reports|
      ensures WaitAt(c, attempts, reports, i)
    {
      if i < last {
        assert WaitAt(c, init, before, i);
      }
    }
  }
}
