/** The in-process scheduler: cron-driven jobs, each fired at most once in a minute. */
module Scheduler {
  import opened Wrappers
  import opened Window
  import Cron

  datatype Job = Job(name: string)

  datatype Registration = Registration(job: Job, cron: string)

  /** How a job ends: normally, with an exception, or with a cancellation, which is no Exception in Python. */
  datatype Outcome = Returned | Raised | Cancelled

  datatype Run = Run(job: Job, minute: int, outcome: Outcome)

  /** Whether a cron expression is due in a minute; None when it is malformed. */
  type Matcher = (string, int) -> Option<bool>

  /** The matcher of a calendar, which gives the fields of each minute since the epoch. */
  function CronMatcher(calendar: int -> Cron.When): Matcher {
    (cron, minute) => Cron.CronMatches(cron, calendar(minute))
  }

  /** How the job of this name ends when it runs in this minute. */
  type Oracle = (Job, int) -> Outcome

  /** The minute in which an instant, in seconds, lies. */
  function MinuteOf(now: real): int {
    CurrentBucket(now, 60)
  }

  /** Minute `m` lasts from second 60 m up to, and without, second 60 m + 60. */
  lemma MinuteIs(now: real, m: int)
    ensures MinuteOf(now) == m <==> 60.0 * m as real <= now < 60.0 * m as real + 60.0
  {
    BucketBounds(now, 60);
    var bucket := MinuteOf(now);
    assert Begin(bucket, 60) == 60.0 * bucket as real;
  }

  ghost predicate DistinctJobs(registry: seq<Registration>) {
    forall i, j :: 0 <= i < j < |registry| ==> registry[i].job != registry[j].job
  }

  /** Registering replaces the entry of the same name in place and appends a new one. */
  function Register(registry: seq<Registration>, r: Registration): seq<Registration> {
    if registry == [] then [r]
    else if registry[0].job == r.job then [r] + registry[1..]
    else [registry[0]] + Register(registry[1..], r)
  }

  lemma {:induction false} RegisterDistinct(registry: seq<Registration>, r: Registration)
    requires DistinctJobs(registry)
    ensures DistinctJobs(Register(registry, r))
    ensures forall x :: x in Register(registry, r) <==> x == r || (x in registry && x.job != r.job)
  {
    if registry != [] {
      assert registry == [registry[0]] + registry[1..];
      RegisterDistinct(registry[1..], r);
    }
  }

  /** A new registration takes the place of the one with its name, or else the place behind all others. */
  lemma {:induction false} RegisterInPlace(registry: seq<Registration>, r: Registration, k: nat)
    requires DistinctJobs(registry) && k < |registry|
    ensures |Register(registry, r)| == |registry| + if exists x <- registry :: x.job == r.job then 0 else 1
    ensures Register(registry, r)[k] == if registry[k].job == r.job then r else registry[k]
    ensures (forall x <- registry :: x.job != r.job) ==> Register(registry, r)[|registry|] == r
  {
    var rest := registry[1..];
    assert registry == [registry[0]] + rest;
    if registry[0].job != r.job && rest != [] {
      RegisterInPlace(rest, r, if k == 0 then 0 else k - 1);
    }
  }

  /** What the scheduler remembers between two rounds, with the log of all executions. */
  datatype State = State(lastRun: map<Job, int>, log: seq<Run>)

  /** A state, and whether the round goes on from it. */
  datatype Progress = Progress(state: State, goesOn: bool)

  predicate Due(r: Registration, minute: int, matches: Matcher) {
    matches(r.cron, minute) == Some(true)
  }

  predicate RunsNow(s: State, r: Registration, minute: int, matches: Matcher) {
    Due(r, minute, matches) && !(r.job in s.lastRun && s.lastRun[r.job] == minute)
  }

  /** One registration in a round. A malformed expression and a cancelled job end the round. */
  function Consider(s: State, r: Registration, minute: int, matches: Matcher, ends: Oracle): Progress {
    if matches(r.cron, minute).None? then Progress(s, false)
    else if !RunsNow(s, r, minute, matches) then Progress(s, true)
    else
      var outcome := ends(r.job, minute);
      Progress(State(s.lastRun[r.job := minute], s.log + [Run(r.job, minute, outcome)]), outcome != Cancelled)
  }

  /** The registrations of a round in their order. */
  function Round(s: State, registry: seq<Registration>, minute: int, matches: Matcher, ends: Oracle): Progress
    decreases |registry|
  {
    if registry == [] then Progress(s, true)
    else
      var after := Consider(s, registry[0], minute, matches, ends);
      if after.goesOn then Round(after.state, registry[1..], minute, matches, ends) else after
  }

  /** The runs that ended in the given way. */
  function Outcomes(log: seq<Run>, outcome: Outcome): nat {
    if log == [] then 0
    else Outcomes(log[..|log| - 1], outcome) + if log[|log| - 1].outcome == outcome then 1 else 0
  }

  /** The counters of completed and of failed runs; cancelled ones are not counted. */
  ghost predicate Counted(log: seq<Run>, runs: nat, failed: nat) {
    runs == Outcomes(log, Returned) && failed == Outcomes(log, Raised)
  }

  lemma CountedNext(log: seq<Run>, run: Run, runs: nat, failed: nat)
    requires Counted(log, runs, failed)
    ensures match run.outcome
            case Returned => Counted(log + [run], runs + 1, failed)
            case Raised => Counted(log + [run], runs, failed + 1)
            case Cancelled => Counted(log + [run], runs, failed)
  {
    assert (log + [run])[..|log|] == log;
  }

  class InProcessScheduler {
    var registry: seq<Registration>
    var lastRun: map<Job, int>
    ghost var log: seq<Run>
    var runsTotal: nat
    var failedTotal: nat
    const matches: Matcher

    /** The two counters agree with the log. */
    ghost predicate Valid()
      reads this
    {
      DistinctJobs(registry) && Counted(log, runsTotal, failedTotal)
    }

    ghost function View(): State
      reads this
    {
      State(lastRun, log)
    }

    constructor (calendar: int -> Cron.When)
      ensures Valid() && registry == [] && View() == State(map[], []) && this.matches == CronMatcher(calendar)
    {
      registry, lastRun, log, runsTotal, failedTotal := [], map[], [], 0, 0;
      matches := CronMatcher(calendar);
    }

    method Add(job: Job, cron: string)
      requires Valid()
      modifies this`registry
      ensures Valid() && registry == Register(old(registry), Registration(job, cron))
    {
      RegisterDistinct(registry, Registration(job, cron));
      registry := Register(registry, Registration(job, cron));
    }

    /** Runs a job and catches what it raises. A cancellation passes through: the result is false. */
    method SafeRun(job: Job, minute: int, ends: Oracle) returns (goesOn: bool)
      requires Valid()
      modifies this`log, this`runsTotal, this`failedTotal
      ensures Valid() && log == old(log) + [Run(job, minute, ends(job, minute))]
      ensures goesOn <==> ends(job, minute) != Cancelled
    {
      var outcome := ends(job, minute);
      CountedNext(log, Run(job, minute, outcome), runsTotal, failedTotal);
      log := log + [Run(job, minute, outcome)];
      match outcome {
        case Returned => runsTotal := runsTotal + 1;
        case Raised => failedTotal := failedTotal + 1;
        case Cancelled => return false;
      }
      return true;
    }

    /** Fires every job that is due and has not run in this minute. The result is false when an exception, from a
        malformed expression or a cancelled job, ends the round early. */
    method RunDue(now: real, ends: Oracle) returns (ok: bool)
      requires Valid()
      modifies this
      ensures Valid() && registry == old(registry)
      ensures Progress(View(), ok) == Round(old(View()), registry, MinuteOf(now), matches, ends)
    {
      var minute := MinuteOf(now);
      for i := 0 to |registry|
        invariant Valid() && registry == old(registry)
        invariant Round(View(), registry[i..], minute, matches, ends) ==
                  Round(old(View()), registry, minute, matches, ends)
      {
        var registration := registry[i];
        assert registry[i..][1..] == registry[i + 1..];
        var due := matches(registration.cron, minute);
        if due.None? {
          return false;
        }
        if !due.value {
          continue;
        }
        if registration.job in lastRun && lastRun[registration.job] == minute {
          continue;
        }
        lastRun := lastRun[registration.job := minute];
        var goesOn := SafeRun(registration.job, minute, ends);
        if !goesOn {
          return false;
        }
      }
      return true;
    }
  }

  // ----- whole runs -----

  /** Rounds at the given instants, with a fixed registry. */
  function Rounds(instants: seq<real>, registry: seq<Registration>, matches: Matcher, ends: Oracle): State {
    if instants == [] then State(map[], [])
    else
      var s := Rounds(instants[..|instants| - 1], registry, matches, ends);
      Round(s, registry, MinuteOf(instants[|instants| - 1]), matches, ends).state
  }

  /** How often a job has fired in a minute. */
  function Fired(log: seq<Run>, job: Job, minute: int): nat {
    if log == [] then 0
    else
      var last := log[|log| - 1];
      Fired(log[..|log| - 1], job, minute) + if last.job == job && last.minute == minute then 1 else 0
  }

  ghost predicate Ordered(instants: seq<real>) {
    forall i, j :: 0 <= i < j < |instants| ==> instants[i] <= instants[j]
  }

  /** How many of the instants lie in a minute. */
  function Visits(instants: seq<real>, minute: int): nat {
    if instants == [] then 0
    else Visits(instants[..|instants| - 1], minute) + if MinuteOf(instants[|instants| - 1]) == minute then 1 else 0
  }

  /** The expressions registered before position `k` are well-formed, as far as the minute makes them be read. */
  ghost predicate ParseBefore(registry: seq<Registration>, minute: int, matches: Matcher, k: nat)
    requires k <= |registry|
  {
    forall i :: 0 <= i < k ==> matches(registry[i].cron, minute).Some?
  }

  /** How many due jobs registered before position `k` are cancelled in the minute. */
  function CancelsBefore(registry: seq<Registration>, minute: int, matches: Matcher, ends: Oracle, k: nat): nat
    requires k <= |registry|
  {
    if k == 0 then 0
    else
      CancelsBefore(registry, minute, matches, ends, k - 1) +
      if Due(registry[k - 1], minute, matches) && ends(registry[k - 1].job, minute) == Cancelled then 1 else 0
  }

  /** Which job has fired in a minute after so many visits: it is due, no malformed expression stands before it, and
      there were more visits than jobs before it to be cancelled. */
  ghost predicate FiredBy(registry: seq<Registration>, minute: int, matches: Matcher, ends: Oracle, k: nat, visits: int)
    requires k < |registry|
  {
    Due(registry[k], minute, matches) && ParseBefore(registry, minute, matches, k) &&
    CancelsBefore(registry, minute, matches, ends, k) < visits
  }

  // ----- one round -----

  /** Nothing before position `k` ends the round. */
  ghost predicate Reaches(s: State, registry: seq<Registration>, minute: int, matches: Matcher, ends: Oracle, k: nat)
    requires k <= |registry|
  {
    forall i :: 0 <= i < k ==>
      matches(registry[i].cron, minute).Some? &&
      !(RunsNow(s, registry[i], minute, matches) && ends(registry[i].job, minute) == Cancelled)
  }

  ghost predicate SameLast(s: State, s': State, job: Job) {
    (job in s'.lastRun <==> job in s.lastRun) && (job in s.lastRun ==> s'.lastRun[job] == s.lastRun[job])
  }

  lemma FiredNext(log: seq<Run>, run: Run, job: Job, m: int)
    ensures Fired(log + [run], job, m) == Fired(log, job, m) + if run.job == job && run.minute == m then 1 else 0
  {
    assert (log + [run])[..|log|] == log;
  }

  /** Considering one registration does not touch other jobs. */
  lemma ConsiderLeavesOthers(s: State, r: Registration, minute: int, matches: Matcher, ends: Oracle, job: Job, m: int)
    requires r.job != job
    ensures var after := Consider(s, r, minute, matches, ends).state;
            Fired(after.log, job, m) == Fired(s.log, job, m) && SameLast(s, after, job)
  {
    FiredNext(s.log, Run(r.job, minute, ends(r.job, minute)), job, m);
  }

  lemma {:induction false} RoundLeavesOthers(s: State, registry: seq<Registration>, minute: int, matches: Matcher,
                                             ends: Oracle, job: Job, m: int)
    requires forall i :: 0 <= i < |registry| ==> registry[i].job != job
    ensures var after := Round(s, registry, minute, matches, ends).state;
            Fired(after.log, job, m) == Fired(s.log, job, m) && SameLast(s, after, job)
    decreases |registry|
  {
    if registry != [] {
      var after := Consider(s, registry[0], minute, matches, ends);
      ConsiderLeavesOthers(s, registry[0], minute, matches, ends, job, m);
      if after.goesOn {
        RoundLeavesOthers(after.state, registry[1..], minute, matches, ends, job, m);
      }
    }
  }

  /** Whether the rest of a round is reached does not depend on what became of the first job. */
  lemma ReachesRest(s: State, registry: seq<Registration>, minute: int, matches: Matcher, ends: Oracle, k: nat)
    requires DistinctJobs(registry) && 1 <= k <= |registry|
    ensures var after := Consider(s, registry[0], minute, matches, ends);
            Reaches(s, registry, minute, matches, ends, k) <==>
            after.goesOn && Reaches(after.state, registry[1..], minute, matches, ends, k - 1)
  {
    var after, rest := Consider(s, registry[0], minute, matches, ends), registry[1..];
    forall i | 0 <= i < k - 1
      ensures rest[i] == registry[i + 1]
      ensures RunsNow(after.state, rest[i], minute, matches) == RunsNow(s, registry[i + 1], minute, matches)
    {
      ConsiderLeavesOthers(s, registry[0], minute, matches, ends, rest[i].job, minute);
    }
    if after.goesOn && Reaches(after.state, rest, minute, matches, ends, k - 1) {
      forall i | 0 <= i < k
        ensures matches(registry[i].cron, minute).Some?
        ensures !(RunsNow(s, registry[i], minute, matches) && ends(registry[i].job, minute) == Cancelled)
      {
        assert i > 0 ==> rest[i - 1] == registry[i];
      }
    }
  }

  /** What a round, or a part of it, does to one job: fire it in the minute, or nothing. */
  ghost predicate Effect(s: State, after: State, job: Job, minute: int, m: int, fires: bool) {
    if fires then
      Fired(after.log, job, m) == Fired(s.log, job, m) + (if m == minute then 1 else 0) &&
      job in after.lastRun && after.lastRun[job] == minute
    else Fired(after.log, job, m) == Fired(s.log, job, m) && SameLast(s, after, job)
  }

  lemma FirstEffect(s: State, registry: seq<Registration>, minute: int, matches: Matcher, ends: Oracle, m: int)
    requires DistinctJobs(registry) && registry != []
    ensures Effect(s, Round(s, registry, minute, matches, ends).state, registry[0].job, minute, m,
                   RunsNow(s, registry[0], minute, matches))
  {
    var first, rest := registry[0], registry[1..];
    var after := Consider(s, first, minute, matches, ends);
    FiredNext(s.log, Run(first.job, minute, ends(first.job, minute)), first.job, m);
    if after.goesOn {
      RoundLeavesOthers(after.state, rest, minute, matches, ends, first.job, m);
    }
  }

  /** In a round a registration fires iff the round reaches it, it is due and it has not yet run in this minute. */
  lemma {:induction false} RoundEffect(s: State, registry: seq<Registration>, minute: int, matches: Matcher,
                                       ends: Oracle, k: nat, m: int)
    requires DistinctJobs(registry) && k < |registry|
    ensures Effect(s, Round(s, registry, minute, matches, ends).state, registry[k].job, minute, m,
                   Reaches(s, registry, minute, matches, ends, k) && RunsNow(s, registry[k], minute, matches))
    decreases |registry|
  {
    if k == 0 {
      FirstEffect(s, registry, minute, matches, ends, m);
    } else {
      var first, rest := registry[0], registry[1..];
      var after := Consider(s, first, minute, matches, ends);
      ReachesRest(s, registry, minute, matches, ends, k);
      ConsiderLeavesOthers(s, first, minute, matches, ends, registry[k].job, m);
      if after.goesOn {
        assert rest[k - 1] == registry[k];
        RoundEffect(after.state, rest, minute, matches, ends, k - 1, m);
      }
    }
  }

  /** A round is completed iff nothing in it raises anything past the caught exceptions. */
  lemma {:induction false} RoundCompletes(s: State, registry: seq<Registration>, minute: int, matches: Matcher,
                                          ends: Oracle)
    requires DistinctJobs(registry)
    ensures Round(s, registry, minute, matches, ends).goesOn <==>
            Reaches(s, registry, minute, matches, ends, |registry|)
    decreases |registry|
  {
    if registry != [] {
      ReachesRest(s, registry, minute, matches, ends, |registry|);
      var after := Consider(s, registry[0], minute, matches, ends);
      if after.goesOn {
        RoundCompletes(after.state, registry[1..], minute, matches, ends);
      }
    }
  }

  // ----- all rounds of a minute -----

  /** Each visit gets past one more cancelled job: those before it have run already. */
  lemma {:induction false} ReachesAtVisit(s: State, registry: seq<Registration>, minute: int, matches: Matcher,
                                          ends: Oracle, k: nat, visits: nat)
    requires k <= |registry|
    requires forall i :: 0 <= i < k ==>
               (RunsNow(s, registry[i], minute, matches) <==>
                Due(registry[i], minute, matches) && !FiredBy(registry, minute, matches, ends, i, visits))
    ensures Reaches(s, registry, minute, matches, ends, k) <==>
            ParseBefore(registry, minute, matches, k) && CancelsBefore(registry, minute, matches, ends, k) <= visits
  {
    if k > 0 {
      ReachesAtVisit(s, registry, minute, matches, ends, k - 1, visits);
      assert Reaches(s, registry, minute, matches, ends, k) <==>
             Reaches(s, registry, minute, matches, ends, k - 1) && matches(registry[k - 1].cron, minute).Some? &&
             !(RunsNow(s, registry[k - 1], minute, matches) && ends(registry[k - 1].job, minute) == Cancelled);
      assert ParseBefore(registry, minute, matches, k) <==>
             ParseBefore(registry, minute, matches, k - 1) && matches(registry[k - 1].cron, minute).Some?;
    }
  }

  /** The last minute in which something has fired, when what has fired in a minute depends on the visits to it. */
  ghost predicate IsLast(last: Option<int>, fired: (int, int) -> bool, visits: int -> int) {
    (last.Some? ==> fired(last.value, visits(last.value))) &&
    (forall m :: fired(m, visits(m)) ==> last.Some? && m <= last.value)
  }

  lemma LastNext(last: Option<int>, last': Option<int>, fired: (int, int) -> bool, visits: int -> int,
                 visits': int -> int, minute: int)
    requires forall m, v :: fired(m, v) ==> v > 0
    requires forall m, u, v :: fired(m, u) && u <= v ==> fired(m, v)
    requires forall m :: visits(m) > 0 ==> m <= minute
    requires forall m :: visits'(m) == visits(m) + if m == minute then 1 else 0
    requires IsLast(last, fired, visits)
    requires last' == if fired(minute, visits(minute) + 1) && !fired(minute, visits(minute)) then Some(minute) else last
    ensures IsLast(last', fired, visits')
  {
    forall m | fired(m, visits'(m))
      ensures last'.Some? && m <= last'.value
    {
      assert m != minute ==> fired(m, visits(m));
    }
  }

  /** The minute remembered for a job is the last one in which it has fired. */
  ghost predicate Remembers(s: State, instants: seq<real>, registry: seq<Registration>, matches: Matcher, ends: Oracle,
                            k: nat)
    requires k < |registry|
  {
    IsLast(LastRun(s, registry[k].job), FiredAfter(registry, matches, ends, k), VisitsTo(instants))
  }

  ghost function FiredAfter(registry: seq<Registration>, matches: Matcher, ends: Oracle, k: nat): (int, int) -> bool
    requires k < |registry|
  {
    (minute, visits) => FiredBy(registry, minute, matches, ends, k, visits)
  }

  function VisitsTo(instants: seq<real>): int -> int {
    minute => Visits(instants, minute)
  }

  function LastRun(s: State, job: Job): Option<int> {
    if job in s.lastRun then Some(s.lastRun[job]) else None
  }

  lemma {:induction false} VisitedBefore(instants: seq<real>, m: int, now: real)
    requires Visits(instants, m) > 0 && forall i :: 0 <= i < |instants| ==> instants[i] <= now
    ensures m <= MinuteOf(now)
  {
    var last := instants[|instants| - 1];
    if MinuteOf(last) == m {
      BucketsMonotone(last, now, 60);
    } else {
      VisitedBefore(instants[..|instants| - 1], m, now);
    }
  }

  /** Before a round in the latest minute, the jobs that would run are the due ones that have not fired in it. */
  lemma RunsUnlessFired(s: State, instants: seq<real>, registry: seq<Registration>, matches: Matcher, ends: Oracle,
                        k: nat, now: real)
    requires k < |registry| && Remembers(s, instants, registry, matches, ends, k)
    requires forall i :: 0 <= i < |instants| ==> instants[i] <= now
    ensures var minute := MinuteOf(now);
            RunsNow(s, registry[k], minute, matches) <==>
            Due(registry[k], minute, matches) &&
            !FiredBy(registry, minute, matches, ends, k, Visits(instants, minute))
  {
    var last, fired, minute := LastRun(s, registry[k].job), FiredAfter(registry, matches, ends, k), MinuteOf(now);
    assert fired(minute, VisitsTo(instants)(minute)) ==> last.Some? && minute <= last.value;
    if last.Some? {
      assert fired(last.value, VisitsTo(instants)(last.value));
      VisitedBefore(instants, last.value, now);
    }
  }

  /** What the next round does, in terms of visits. */
  lemma NextRound(instants: seq<real>, registry: seq<Registration>, matches: Matcher, ends: Oracle, k: nat, m: int)
    requires DistinctJobs(registry) && k < |registry| && instants != [] && Ordered(instants)
    requires var front := instants[..|instants| - 1];
             forall i :: 0 <= i < |registry| ==>
               Remembers(Rounds(front, registry, matches, ends), front, registry, matches, ends, i)
    ensures var front, minute := instants[..|instants| - 1], MinuteOf(instants[|instants| - 1]);
            var s, after := Rounds(front, registry, matches, ends), Rounds(instants, registry, matches, ends);
            var job, visits := registry[k].job, Visits(front, minute);
            Effect(s, after, job, minute, m,
                   FiredBy(registry, minute, matches, ends, k, visits + 1) &&
                   !FiredBy(registry, minute, matches, ends, k, visits))
  {
    var front, now := instants[..|instants| - 1], instants[|instants| - 1];
    var s, minute := Rounds(front, registry, matches, ends), MinuteOf(now);
    forall i | 0 <= i < |registry|
      ensures RunsNow(s, registry[i], minute, matches) <==>
              Due(registry[i], minute, matches) &&
              !FiredBy(registry, minute, matches, ends, i, Visits(front, minute))
    {
      RunsUnlessFired(s, front, registry, matches, ends, i, now);
    }
    ReachesAtVisit(s, registry, minute, matches, ends, k, Visits(front, minute));
    RoundEffect(s, registry, minute, matches, ends, k, m);
  }

  lemma FiredAfterMore(registry: seq<Registration>, matches: Matcher, ends: Oracle, k: nat)
    requires k < |registry|
    ensures var fired := FiredAfter(registry, matches, ends, k);
            (forall m, v :: fired(m, v) ==> v > 0) && (forall m, u, v :: fired(m, u) && u <= v ==> fired(m, v))
  {
  }

  lemma LastAfter(s: State, after: State, job: Job, minute: int, m: int, fires: bool)
    requires Effect(s, after, job, minute, m, fires)
    ensures LastRun(after, job) == if fires then Some(minute) else LastRun(s, job)
  {
  }

  lemma VisitsNext(instants: seq<real>)
    requires instants != [] && Ordered(instants)
    ensures var front, minute := instants[..|instants| - 1], MinuteOf(instants[|instants| - 1]);
            (forall m :: VisitsTo(instants)(m) == VisitsTo(front)(m) + if m == minute then 1 else 0) &&
            (forall m :: VisitsTo(front)(m) > 0 ==> m <= minute)
  {
    var front, now := instants[..|instants| - 1], instants[|instants| - 1];
    forall m | Visits(front, m) > 0
      ensures m <= MinuteOf(now)
    {
      VisitedBefore(front, m, now);
    }
  }

  lemma {:induction false} RemembersAfter(instants: seq<real>, registry: seq<Registration>, matches: Matcher,
                                          ends: Oracle, k: nat)
    requires Ordered(instants) && DistinctJobs(registry) && k < |registry|
    ensures Remembers(Rounds(instants, registry, matches, ends), instants, registry, matches, ends, k)
    decreases |instants|
  {
    if instants != [] {
      var front := instants[..|instants| - 1];
      forall i | 0 <= i < |registry|
        ensures Remembers(Rounds(front, registry, matches, ends), front, registry, matches, ends, i)
      {
        RemembersAfter(front, registry, matches, ends, i);
      }
      NextRound(instants, registry, matches, ends, k, 0);
      RemembersNext(Rounds(front, registry, matches, ends), Rounds(instants, registry, matches, ends), instants,
                    registry, matches, ends, k);
    }
  }

  lemma RemembersNext(s: State, after: State, instants: seq<real>, registry: seq<Registration>, matches: Matcher,
                      ends: Oracle, k: nat)
    requires k < |registry| && instants != [] && Ordered(instants)
    requires var front, minute := instants[..|instants| - 1], MinuteOf(instants[|instants| - 1]);
             var fired, visits := FiredAfter(registry, matches, ends, k), VisitsTo(front);
             Remembers(s, front, registry, matches, ends, k) &&
             Effect(s, after, registry[k].job, minute, 0,
                    fired(minute, visits(minute) + 1) && !fired(minute, visits(minute)))
    ensures Remembers(after, instants, registry, matches, ends, k)
  {
    var front, minute := instants[..|instants| - 1], MinuteOf(instants[|instants| - 1]);
    var job, fired, visits := registry[k].job, FiredAfter(registry, matches, ends, k), VisitsTo(front);
    LastAfter(s, after, job, minute, 0, fired(minute, visits(minute) + 1) && !fired(minute, visits(minute)));
    FiredAfterMore(registry, matches, ends, k);
    VisitsNext(instants);
    LastNext(LastRun(s, job), LastRun(after, job), fired, visits, VisitsTo(instants), minute);
  }

  /** Over any rounds under a clock that does not go back, a job fires in a minute at most once, and it does so exactly
      when it is due, no malformed expression is registered before it, and the minute was visited more often than
      there are cancelled jobs before it. Exceptions of jobs make no difference. */
  lemma {:induction false} FiresExactlyOnce(instants: seq<real>, registry: seq<Registration>, matches: Matcher,
                                            ends: Oracle, k: nat, m: int)
    requires Ordered(instants) && DistinctJobs(registry) && k < |registry|
    ensures Fired(Rounds(instants, registry, matches, ends).log, registry[k].job, m) ==
            if FiredBy(registry, m, matches, ends, k, Visits(instants, m)) then 1 else 0
    decreases |instants|
  {
    if instants != [] {
      var front := instants[..|instants| - 1];
      FiresExactlyOnce(front, registry, matches, ends, k, m);
      forall i | 0 <= i < |registry|
        ensures Remembers(Rounds(front, registry, matches, ends), front, registry, matches, ends, i)
      {
        RemembersAfter(front, registry, matches, ends, i);
      }
      NextRound(instants, registry, matches, ends, k, m);
    }
  }

  /** Instants at most a minute apart visit every minute in between. */
  lemma {:induction false} NoMinuteSkipped(instants: seq<real>, m: int)
    requires Ordered(instants) && instants != []
    requires forall i, j :: 0 <= i < j < |instants| && j == i + 1 ==> instants[j] <= instants[i] + 60.0
    requires MinuteOf(instants[0]) <= m <= MinuteOf(instants[|instants| - 1])
    ensures Visits(instants, m) >= 1
    decreases |instants|
  {
    if MinuteOf(instants[|instants| - 1]) != m {
      var last, before, front := instants[|instants| - 1], instants[|instants| - 2], instants[..|instants| - 1];
      TwoBuckets(before, last, 60);
      assert front[0] == instants[0] && front[|front| - 1] == before;
      NoMinuteSkipped(front, m);
    }
  }

  /** So with rounds at most a minute apart, and no cancelled job registered before it, a job misses none of its due
      minutes in between. */
  lemma NoDueMinuteMissed(instants: seq<real>, registry: seq<Registration>, matches: Matcher, ends: Oracle, k: nat,
                          m: int)
    requires Ordered(instants) && DistinctJobs(registry) && k < |registry|
    requires instants != [] && MinuteOf(instants[0]) <= m <= MinuteOf(instants[|instants| - 1])
    requires forall i, j :: 0 <= i < j < |instants| && j == i + 1 ==> instants[j] <= instants[i] + 60.0
    ensures CancelsBefore(registry, m, matches, ends, k) == 0 ==>
              Fired(Rounds(instants, registry, matches, ends).log, registry[k].job, m) ==
              if Due(registry[k], m, matches) && ParseBefore(registry, m, matches, k) then 1 else 0
  {
    FiresExactlyOnce(instants, registry, matches, ends, k, m);
    NoMinuteSkipped(instants, m);
  }

  // ----- what is logged -----

  /** Every execution is of a registered job in a minute in which it is due, and ends as that job does then. */
  ghost predicate LogIsTrue(log: seq<Run>, registry: seq<Registration>, matches: Matcher, ends: Oracle) {
    forall r <- log ::
      r.outcome == ends(r.job, r.minute) && exists x <- registry :: x.job == r.job && Due(x, r.minute, matches)
  }

  lemma {:induction false} RoundLogsTruly(s: State, registry: seq<Registration>, rest: seq<Registration>, minute: int,
                                          matches: Matcher, ends: Oracle)
    requires LogIsTrue(s.log, registry, matches, ends) && forall x <- rest :: x in registry
    ensures LogIsTrue(Round(s, rest, minute, matches, ends).state.log, registry, matches, ends)
    decreases |rest|
  {
    if rest != [] {
      assert rest[0] in rest;
      RoundLogsTruly(Consider(s, rest[0], minute, matches, ends).state, registry, rest[1..], minute, matches, ends);
    }
  }

  lemma {:induction false} RunsLogTruly(instants: seq<real>, registry: seq<Registration>, matches: Matcher,
                                        ends: Oracle)
    ensures LogIsTrue(Rounds(instants, registry, matches, ends).log, registry, matches, ends)
  {
    if instants != [] {
      var front, last := instants[..|instants| - 1], instants[|instants| - 1];
      RunsLogTruly(front, registry, matches, ends);
      RoundLogsTruly(Rounds(front, registry, matches, ends), registry, registry, MinuteOf(last), matches, ends);
    }
  }
}
