/**
 The drift-corrected scheduler. The environment is a script: for every tick, whether stop was
 requested before it, the clock when it began and ended, the callback's return code, and what
 the relative sleeps did. Times are nanoseconds in 64-bit words.
 */
module Cycle {
  import opened Wrappers
  import opened Words

  const WORD: nat := 0x1_0000_0000_0000_0000
  const NSEC_PER_SEC: nat := 1_000_000_000

  /** What nanosleep did; when it reports success, the time at which it woke. */
  datatype Outcome = Slept(woke: nat) | Interrupted | Error

  /** One turn of the sleep loop: the clock it read and what nanosleep did, if it was called. */
  datatype Nap = Nap(now: nat, outcome: Outcome)

  datatype TickEnv = TickEnv(stop: bool, began: nat, rc: int, ended: nat, naps: seq<Nap>)

  datatype Stats = Stats(ticks: nat, overruns: nat, slackSum: nat, slackMax: nat, jitterSum: nat, jitterMax: nat)

  /** How the sleep loop ends. */
  datatype Wake = Reached | AfterSleep | AfterError | StillAsleep

  function WakeOf(naps: seq<Nap>, target: nat): Wake {
    if |naps| == 0 then StillAsleep
    else if naps[0].now >= target then Reached
    else match naps[0].outcome
      case Slept(_) => AfterSleep
      case Error => AfterError
      case Interrupted => WakeOf(naps[1..], target)
  }

  datatype Timespec = Timespec(sec: nat, nsec: nat)

  function Nanoseconds(t: Timespec): nat {
    t.sec * NSEC_PER_SEC + t.nsec
  }

  /** What nanosleep is asked for at a time before the target. */
  function Request(now: nat, target: nat): Timespec
    requires now < target
  {
    Timespec((target - now) / NSEC_PER_SEC, (target - now) % NSEC_PER_SEC)
  }

  /** It is legal, and exactly the time left. */
  lemma RequestIsRest(now: nat, target: nat)
    requires now < target
    ensures Request(now, target).nsec < 1_000_000_000 && now + Nanoseconds(Request(now, target)) == target
    ensures Nanoseconds(Request(now, target)) == Request(now, target).sec * 1_000_000_000 + Request(now, target).nsec
  {
    var delta := target - now;
    assert delta == delta / NSEC_PER_SEC * NSEC_PER_SEC + delta % NSEC_PER_SEC;
  }

  /** The sleeps the loop asks for. */
  function Requests(naps: seq<Nap>, target: nat): seq<Timespec> {
    if |naps| == 0 || naps[0].now >= target then []
    else [Request(naps[0].now, target)] + if naps[0].outcome.Interrupted? then Requests(naps[1..], target) else []
  }

  /** Each is for exactly the time left when it is made. */
  lemma {:induction false} RequestsAreRests(naps: seq<Nap>, target: nat)
    ensures |Requests(naps, target)| <= |naps|
    ensures forall k :: 0 <= k < |Requests(naps, target)| ==>
      var t := Requests(naps, target)[k];
      t.nsec < 1_000_000_000 && naps[k].now + t.sec * 1_000_000_000 + t.nsec == target
  {
    hide Request, Nanoseconds;
    if |naps| > 0 && naps[0].now < target {
      RequestIsRest(naps[0].now, target);
      RequestsAreRests(naps[1..], target);
    }
  }

  /** Relative sleeps, recomputed after every interruption. */
  method SleepUntil(target: nat, naps: seq<Nap>) returns (wake: Wake, asked: seq<Timespec>)
    ensures wake == WakeOf(naps, target) && asked == Requests(naps, target)
  {
    asked := [];
    assert naps[0..] == naps;
    for k := 0 to |naps|
      invariant WakeOf(naps, target) == WakeOf(naps[k..], target)
      invariant Requests(naps, target) == asked + Requests(naps[k..], target)
    {
      assert naps[k..][0] == naps[k] && naps[k..][1..] == naps[k + 1..];
      if naps[k].now >= target {
        return Reached, asked;
      }
      var delta := target - naps[k].now;
      var rel := Timespec(delta / NSEC_PER_SEC, delta % NSEC_PER_SEC);
      AskOnce(asked, rel, naps[k..], target);
      asked := asked + [rel];
      match naps[k].outcome
      case Slept(_) => return AfterSleep, asked;
      case Error => return AfterError, asked;
      case Interrupted =>
    }
    return StillAsleep, asked;
  }

  lemma {:induction false} AskOnce(asked: seq<Timespec>, rel: Timespec, naps: seq<Nap>, target: nat)
    requires |naps| > 0 && naps[0].now < target && rel == Request(naps[0].now, target)
    ensures asked + Requests(naps, target) == asked + [rel] + if naps[0].outcome.Interrupted? then Requests(naps[1..], target) else []
  {
  }

  // ---------------------------------------------------------------- what the counters mean

  /** A tick that ran: when it was due, when it began and ended, and the target of the next. */
  datatype Tick = Tick(due: nat, began: nat, ended: nat, target: nat)

  function Due(start: nat, period: nat, n: nat): nat {
    start + n * period
  }

  /** The ticks of a script, the first being number n. */
  function Trace(start: nat, period: nat, n: nat, script: seq<TickEnv>): (ts: seq<Tick>)
    ensures |ts| == |script|
    ensures forall k :: 0 <= k < |ts| ==>
      ts[k] == Tick(Due(start, period, n + k), script[k].began, script[k].ended, Due(start, period, n + k + 1))
  {
    seq(|script|, k requires 0 <= k < |script| =>
      Tick(Due(start, period, n + k), script[k].began, script[k].ended, Due(start, period, n + k + 1)))
  }

  function Slack(t: Tick): nat {
    if t.ended < t.target then t.target - t.ended else 0
  }

  /** The distance of a tick's start from its due time. */
  function Jitter(t: Tick): nat {
    if t.began > t.due then t.began - t.due else t.due - t.began
  }

  function Late(t: Tick): nat {
    if t.ended > t.target then 1 else 0
  }

  /** The sum and the maximum of a measure over ticks. */
  function Total(f: Tick -> nat, ts: seq<Tick>): nat {
    if |ts| == 0 then 0 else Total(f, ts[..|ts| - 1]) + f(ts[|ts| - 1])
  }

  function Greatest(f: Tick -> nat, ts: seq<Tick>): (m: nat)
    ensures forall k :: 0 <= k < |ts| ==> f(ts[k]) <= m
    ensures m == 0 || exists k :: 0 <= k < |ts| && f(ts[k]) == m
  {
    if |ts| == 0 then 0
    else
      var m := Greatest(f, ts[..|ts| - 1]);
      if f(ts[|ts| - 1]) > m then f(ts[|ts| - 1]) else m
  }

  /** The ticks that ended after their target. */
  function Overrunning(ts: seq<Tick>): set<nat> {
    set k: nat | k < |ts| && ts[k].ended > ts[k].target
  }

  /** Overruns are the number of these. */
  lemma {:induction false} OverrunsCounted(ts: seq<Tick>)
    ensures Total(Late, ts) == |Overrunning(ts)|
  {
    if |ts| > 0 {
      var n := |ts| - 1;
      OverrunsCounted(ts[..n]);
      assert Overrunning(ts) == if ts[n].ended > ts[n].target then Overrunning(ts[..n]) + {n} else Overrunning(ts[..n]);
    } else {
      assert Overrunning(ts) == {};
    }
  }

  /** The ticks that have a previous deadline: all but number 0. */
  function Compared(n: nat, ts: seq<Tick>): seq<Tick> {
    if n == 0 && |ts| > 0 then ts[1..] else ts
  }

  /** How many ticks of a script run before a stop request or a nonzero return code. */
  function Ran(script: seq<TickEnv>): (k: nat)
    ensures k <= |script|
  {
    if |script| == 0 || script[0].stop then 0
    else if script[0].rc != 0 then 1
    else 1 + Ran(script[1..])
  }

  /** No deadline and no clock reading overflows a word. */
  predicate InWords(start: nat, period: nat, n: nat, script: seq<TickEnv>) {
    && Due(start, period, n + |script| + 1) < WORD
    && n + |script| < WORD
    && period < WORD
    && forall k :: 0 <= k < |script| ==> script[k].began < WORD && script[k].ended < WORD
  }

  function Wrap(x: nat): nat {
    x % WORD
  }

  lemma WrapSmall(x: nat)
    requires x < WORD
    ensures Wrap(x) == x
  {
  }

  lemma WrapSum(a: nat, b: nat)
    ensures Wrap(Wrap(a) + b) == Wrap(a + b)
  {
    var q := a / WORD;
    assert a == q * WORD + a % WORD;
    var r := (a % WORD + b) % WORD;
    var p := (a % WORD + b) / WORD;
    assert a % WORD + b == p * WORD + r;
    assert a + b == (q + p) * WORD + r;
    DivisionUnique(a + b, WORD, q + p, r);
  }

  class Scheduler {
    var period: nat
    var stats: Stats
    var stopRequested: bool
    var initialised: bool

    constructor ()
      ensures !initialised
    {
      period, stats, stopRequested, initialised := 0, Stats(0, 0, 0, 0, 0, 0), false, false;
    }
  }

  method Init(cycle: Scheduler?, period: nat, hasTick: bool) returns (rc: int)
    modifies cycle
    ensures rc == if cycle == null || period == 0 || !hasTick then -1 else 0
    ensures rc == 0 ==> cycle.initialised && !cycle.stopRequested && cycle.period == period && cycle.stats == Stats(0, 0, 0, 0, 0, 0)
    ensures rc != 0 && cycle != null ==> unchanged(cycle)
  {
    if cycle == null || period == 0 || !hasTick {
      return -1;
    }
    cycle.period := period;
    cycle.stats := Stats(0, 0, 0, 0, 0, 0);
    cycle.stopRequested := false;
    cycle.initialised := true;
    return 0;
  }

  method Stop(cycle: Scheduler?)
    modifies cycle
    ensures cycle != null ==> cycle.stopRequested && cycle.period == old(cycle.period) && cycle.stats == old(cycle.stats)
                              && cycle.initialised == old(cycle.initialised)
  {
    if cycle != null {
      cycle.stopRequested := true;
    }
  }

  lemma TotalAppend(f: Tick -> nat, ts: seq<Tick>, t: Tick)
    ensures Total(f, ts + [t]) == Total(f, ts) + f(t)
    ensures Greatest(f, ts + [t]) == if f(t) > Greatest(f, ts) then f(t) else Greatest(f, ts)
  {
    assert (ts + [t])[..|ts|] == ts;
  }

  lemma ComparedAppend(n: nat, ts: seq<Tick>, t: Tick)
    ensures Compared(n, ts + [t]) == if n == 0 && |ts| == 0 then [] else Compared(n, ts) + [t]
  {
  }

  function Larger(a: nat, b: nat): nat {
    if a > b then a else b
  }

  /** One more tick accounted for. */
  function Account(s: Stats, t: Tick): Stats {
    var jitter := if s.ticks > 0 then Jitter(t) else 0;
    Stats(
      Wrap(s.ticks + 1),
      Wrap(s.overruns + Late(t)),
      Wrap(s.slackSum + Slack(t)),
      Larger(Slack(t), s.slackMax),
      Wrap(s.jitterSum + jitter),
      Larger(jitter, s.jitterMax))
  }

  /** The counters after the ticks ts, the first being number n: counts, sums and maxima over the trace. */
  predicate Tallied(before: Stats, ts: seq<Tick>, after: Stats) {
    var compared := Compared(before.ticks, ts);
    && after.ticks == before.ticks + |ts|
    && after.overruns == Wrap(before.overruns + Total(Late, ts))
    && after.slackSum == Wrap(before.slackSum + Total(Slack, ts))
    && after.slackMax == Larger(Greatest(Slack, ts), before.slackMax)
    && after.jitterSum == Wrap(before.jitterSum + Total(Jitter, compared))
    && after.jitterMax == Larger(Greatest(Jitter, compared), before.jitterMax)
  }

  lemma AccountTallies(before: Stats, ts: seq<Tick>, s: Stats, t: Tick)
    requires Tallied(before, ts, s) && before.ticks + |ts| + 1 < WORD
    ensures Tallied(before, ts + [t], Account(s, t)) && Account(s, t).ticks == s.ticks + 1
  {
    hide Wrap, Jitter, Slack, Late, Total, Greatest, Larger, Compared;
    SumTallies(Late, before.overruns, ts, s.overruns, t);
    SumTallies(Slack, before.slackSum, ts, s.slackSum, t);
    MaxTallies(Slack, before.slackMax, ts, s.slackMax, t);
    JitterTallies(before, ts, s, t);
    WrapSmall(s.ticks + 1);
  }

  lemma JitterTallies(before: Stats, ts: seq<Tick>, s: Stats, t: Tick)
    requires s.ticks == before.ticks + |ts|
    requires s.jitterSum == Wrap(before.jitterSum + Total(Jitter, Compared(before.ticks, ts)))
    requires s.jitterMax == Larger(Greatest(Jitter, Compared(before.ticks, ts)), before.jitterMax)
    ensures Account(s, t).jitterSum == Wrap(before.jitterSum + Total(Jitter, Compared(before.ticks, ts + [t])))
    ensures Account(s, t).jitterMax == Larger(Greatest(Jitter, Compared(before.ticks, ts + [t])), before.jitterMax)
  {
    hide Wrap, Jitter, Slack, Late, Total, Greatest, Larger;
    var compared := Compared(before.ticks, ts);
    ComparedAppend(before.ticks, ts, t);
    if s.ticks == 0 {
      assert Compared(before.ticks, ts + [t]) == compared;
      WrapSum(before.jitterSum + Total(Jitter, compared), 0);
      LargerZero(s.jitterMax);
    } else {
      SumTallies(Jitter, before.jitterSum, compared, s.jitterSum, t);
      MaxTallies(Jitter, before.jitterMax, compared, s.jitterMax, t);
    }
  }

  lemma LargerZero(a: nat)
    ensures Larger(0, a) == a
  {
  }

  lemma SumTallies(f: Tick -> nat, before: nat, ts: seq<Tick>, sum: nat, t: Tick)
    requires sum == Wrap(before + Total(f, ts))
    ensures Wrap(sum + f(t)) == Wrap(before + Total(f, ts + [t]))
  {
    hide Wrap;
    TotalAppend(f, ts, t);
    WrapSum(before + Total(f, ts), f(t));
  }

  lemma MaxTallies(f: Tick -> nat, before: nat, ts: seq<Tick>, max: nat, t: Tick)
    requires max == Larger(Greatest(f, ts), before)
    ensures Larger(f(t), max) == Larger(Greatest(f, ts + [t]), before)
  {
    hide Greatest;
    TotalAppend(f, ts, t);
  }

  /** The counters are words. */
  predicate WordStats(s: Stats) {
    s.ticks < WORD && s.overruns < WORD && s.slackSum < WORD && s.slackMax < WORD && s.jitterSum < WORD && s.jitterMax < WORD
  }

  lemma NothingTallied(s: Stats)
    requires WordStats(s)
    ensures Tallied(s, [], s)
  {
  }

  /** The deadline of tick n, computed in words. */
  function DueWord(start: nat, period: nat, n: nat): nat {
    Wrap(start + Wrap(Wrap(n) * period))
  }

  /** Deadlines computed in words are the deadlines. */
  lemma DueInWords(start: nat, period: nat, n: nat, script: seq<TickEnv>, k: nat)
    requires InWords(start, period, n, script) && k < |script|
    ensures n + k + 1 < WORD && Due(start, period, n + k) < WORD && Due(start, period, n + k + 1) < WORD
    ensures DueWord(start, period, n + k + 1) == Due(start, period, n + k + 1)
    ensures DueWord(start, period, n + k) == Due(start, period, n + k)
  {
    hide Wrap;
    DueMonotone(start, period, n + k, n + |script| + 1);
    DueMonotone(start, period, n + k + 1, n + |script| + 1);
    WrapSmall(n + k + 1);
    WrapSmall(n + k);
    WrapSmall((n + k + 1) * period);
    WrapSmall((n + k) * period);
    WrapSmall(Due(start, period, n + k + 1));
    WrapSmall(Due(start, period, n + k));
  }

  lemma DueMonotone(start: nat, period: nat, m: nat, n: nat)
    requires m <= n
    ensures Due(start, period, m) <= Due(start, period, n)
  {
    assert n * period == m * period + (n - m) * period;
  }

  /** The measurements of one tick, made around the callback. */
  method Measure(cycle: Scheduler, start: nat, e: TickEnv, ghost t: Tick) returns (target: nat)
    requires cycle.stats.ticks + 1 < WORD && WordStats(cycle.stats)
    requires t.began == e.began && t.ended == e.ended
    requires DueWord(start, cycle.period, cycle.stats.ticks + 1) == t.target
    requires DueWord(start, cycle.period, cycle.stats.ticks) == t.due
    modifies cycle`stats
    ensures target == t.target && cycle.stats == Account(old(cycle.stats), t)
  {
    hide Wrap, DueWord;
    WrapSmall(cycle.stats.overruns);
    WrapSmall(cycle.stats.jitterSum);
    target := DueWord(start, cycle.period, cycle.stats.ticks + 1);
    if cycle.stats.ticks > 0 {
      var previous := DueWord(start, cycle.period, cycle.stats.ticks);
      var jitter := if e.began > previous then e.began - previous else previous - e.began;
      cycle.stats := cycle.stats.(jitterSum := Wrap(cycle.stats.jitterSum + jitter));
      if jitter > cycle.stats.jitterMax {
        cycle.stats := cycle.stats.(jitterMax := jitter);
      }
    }
    cycle.stats := cycle.stats.(ticks := Wrap(cycle.stats.ticks + 1));
    var slack := if e.ended < target then target - e.ended else 0;
    cycle.stats := cycle.stats.(slackSum := Wrap(cycle.stats.slackSum + slack));
    if slack > cycle.stats.slackMax {
      cycle.stats := cycle.stats.(slackMax := slack);
    }
    if e.ended > target {
      cycle.stats := cycle.stats.(overruns := Wrap(cycle.stats.overruns + 1));
    }
  }

  lemma TallyWords(before: Stats, ts: seq<Tick>, after: Stats)
    requires WordStats(before) && Tallied(before, ts, after) && after.ticks < WORD
    requires forall k :: 0 <= k < |ts| ==> ts[k].due < WORD && ts[k].began < WORD && ts[k].target < WORD
    ensures WordStats(after)
  {
  }

  /** The sleeps asked for after a tick. */
  function SleepsOf(t: Tick, e: TickEnv): seq<Timespec> {
    if e.rc == 0 && t.ended < t.target then Requests(e.naps, t.target) else []
  }

  function Sleeps(ts: seq<Tick>, script: seq<TickEnv>): (r: seq<seq<Timespec>>)
    requires |ts| == |script|
    ensures |r| == |ts| && forall k :: 0 <= k < |ts| ==> r[k] == SleepsOf(ts[k], script[k])
  {
    seq(|ts|, k requires 0 <= k < |ts| => SleepsOf(ts[k], script[k]))
  }

  lemma NoSleeps()
    ensures Sleeps([], []) == []
  {
  }

  lemma SleepsAppend(ts: seq<Tick>, script: seq<TickEnv>, t: Tick, e: TickEnv)
    requires |ts| == |script|
    ensures Sleeps(ts + [t], script + [e]) == Sleeps(ts, script) + [if e.rc == 0 && t.ended < t.target then Requests(e.naps, t.target) else []]
  {
  }

  /**
   Runs the loop over a script. It runs exactly the ticks up to a stop request or a nonzero
   return code, and its counters are the count, sums and maxima over the trace of those ticks.
   After each of them but one that stops the run it asks for the sleeps to the next deadline.
   The code returned is None when the script ends first.
   */
  method RunCycle(cycle: Scheduler?, start: nat, script: seq<TickEnv>) returns (rc: Option<int>, ran: nat, sleeps: seq<seq<Timespec>>)
    requires cycle != null && cycle.initialised ==> InWords(start, cycle.period, cycle.stats.ticks, script) && WordStats(cycle.stats)
    modifies cycle
    ensures cycle == null || !old(cycle.initialised) ==> rc == Some(-1) && ran == 0 && sleeps == [] && (cycle != null ==> unchanged(cycle))
    ensures cycle != null && old(cycle.initialised) ==>
      && ran == (if old(cycle.stopRequested) then 0 else Ran(script))
      && Tallied(old(cycle.stats), Trace(start, cycle.period, old(cycle.stats.ticks), script[..ran]), cycle.stats)
      && cycle.period == old(cycle.period)
      && sleeps == Sleeps(Trace(start, cycle.period, old(cycle.stats.ticks), script[..ran]), script[..ran])
      && rc == if ran > 0 && script[ran - 1].rc != 0 then Some(script[ran - 1].rc) else if cycle.stopRequested then Some(0) else None
  {
    hide Due, DueWord, Wrap, Trace, Tallied, Account, Ran, InWords, WordStats, Sleeps, SleepsOf, Requests;
    if cycle == null || !cycle.initialised {
      return Some(-1), 0, [];
    }
    ran, sleeps := 0, [];
    ghost var before, n, period := cycle.stats, cycle.stats.ticks, cycle.period;
    assert script[0..] == script && Trace(start, period, n, script[..0]) == [];
    NothingTallied(before);
    NoSleeps();
    while ran < |script|
      invariant ran <= |script| && cycle.period == period && cycle.initialised
      invariant Ran(script) == ran + Ran(script[ran..])
      invariant cycle.stopRequested == old(cycle.stopRequested)
      invariant ran > 0 ==> script[ran - 1].rc == 0 && !cycle.stopRequested
      invariant Tallied(before, Trace(start, period, n, script[..ran]), cycle.stats) && cycle.stats.ticks == n + ran
      invariant sleeps == Sleeps(Trace(start, period, n, script[..ran]), script[..ran])
    {
      var e := script[ran];
      RanStep(script, ran);
      if e.stop {
        Stop(cycle);
      }
      if cycle.stopRequested {
        return Some(0), ran, sleeps;
      }
      ghost var ts := Trace(start, period, n, script[..ran]);
      ghost var t := Tick(Due(start, period, n + ran), e.began, e.ended, Due(start, period, n + ran + 1));
      TraceInWords(start, period, n, script, ran);
      DueInWords(start, period, n, script, ran);
      TallyWords(before, ts, cycle.stats);
      AccountTallies(before, ts, cycle.stats, t);
      TraceExtends(start, period, n, script, ran);
      var target := Measure(cycle, start, e, t);
      assert script[..ran + 1] == script[..ran] + [e];
      SleepsAppend(ts, script[..ran], t, e);
      ran := ran + 1;
      if e.rc != 0 {
        return Some(e.rc), ran, sleeps + [[]];
      }
      var asked := [];
      if e.ended < target {
        var wake;
        wake, asked := SleepUntil(target, e.naps);
      }
      sleeps := sleeps + [asked];
    }
    return if cycle.stopRequested then Some(0) else None, ran, sleeps;
  }

  lemma TraceInWords(start: nat, period: nat, n: nat, script: seq<TickEnv>, k: nat)
    requires InWords(start, period, n, script) && k <= |script|
    ensures var ts := Trace(start, period, n, script[..k]);
      forall i :: 0 <= i < |ts| ==> ts[i].due < WORD && ts[i].began < WORD && ts[i].target < WORD
  {
    hide Due, InWords;
    var ts := Trace(start, period, n, script[..k]);
    forall i | 0 <= i < |ts| ensures ts[i].due < WORD && ts[i].began < WORD && ts[i].target < WORD {
      DueInWords(start, period, n, script, i);
      ReadingsInWords(start, period, n, script, i);
    }
  }

  lemma ReadingsInWords(start: nat, period: nat, n: nat, script: seq<TickEnv>, k: nat)
    requires InWords(start, period, n, script) && k < |script|
    ensures script[k].began < WORD && script[k].ended < WORD
  {
  }

  lemma TraceExtends(start: nat, period: nat, n: nat, script: seq<TickEnv>, k: nat)
    requires k < |script|
    ensures Trace(start, period, n, script[..k + 1])
         == Trace(start, period, n, script[..k]) + [Tick(Due(start, period, n + k), script[k].began, script[k].ended, Due(start, period, n + k + 1))]
  {
    hide Due;
  }

  lemma {:induction false} RanStep(script: seq<TickEnv>, k: nat)
    requires k < |script|
    ensures Ran(script[k..]) == if script[k].stop then 0 else if script[k].rc != 0 then 1 else 1 + Ran(script[k + 1..])
  {
    assert script[k..][0] == script[k] && script[k..][1..] == script[k + 1..];
  }

  // ---------------------------------------------------------------- phase

  /** The clock never runs backwards, and no tick reads it before the run started. */
  predicate Monotone(start: nat, script: seq<TickEnv>) {
    && (forall k :: 0 <= k < |script| ==> start <= script[k].began <= script[k].ended)
    && (forall k, i :: 0 <= k < |script| && 0 <= i < |script[k].naps| ==> script[k].ended <= script[k].naps[i].now)
    && (forall k :: 0 < k < |script| ==> Resumes(script[k - 1], script[k]))
  }

  /** The next tick begins after everything the last one read, and after its sleeps. */
  predicate Resumes(e: TickEnv, next: TickEnv) {
    && e.ended <= next.began
    && (forall i :: 0 <= i < |e.naps| ==> e.naps[i].now <= next.began)
    && (forall i :: 0 <= i < |e.naps| && e.naps[i].outcome.Slept? ==> e.naps[i].outcome.woke <= next.began)
  }

  /** A sleep that reports success lasts as long as it was asked to. */
  predicate HonestNap(nap: Nap, target: nat) {
    nap.outcome.Slept? && nap.now < target ==> nap.outcome.woke >= nap.now + Nanoseconds(Request(nap.now, target))
  }

  /** The tick slept, if it had to, and no sleep failed but for a signal. */
  predicate Honest(e: TickEnv, target: nat) {
    e.ended < target ==>
      && (WakeOf(e.naps, target) == Reached || WakeOf(e.naps, target) == AfterSleep)
      && forall i :: 0 <= i < |e.naps| ==> HonestNap(e.naps[i], target)
  }

  predicate HonestSleeps(start: nat, period: nat, n: nat, script: seq<TickEnv>) {
    forall k {:trigger Due(start, period, n + k)} :: 0 < k < |script| ==> Honest(script[k - 1], Due(start, period, n + k))
  }

  lemma {:induction false} ReachedReads(naps: seq<Nap>, target: nat) returns (i: nat)
    requires WakeOf(naps, target) == Reached
    ensures i < |naps| && naps[i].now >= target
  {
    if naps[0].now >= target {
      i := 0;
    } else {
      i := ReachedReads(naps[1..], target);
      i := i + 1;
    }
  }

  lemma {:induction false} AfterSleepSlept(naps: seq<Nap>, target: nat) returns (i: nat)
    requires WakeOf(naps, target) == AfterSleep
    ensures i < |naps| && naps[i].now < target && naps[i].outcome.Slept?
  {
    if naps[0].outcome.Slept? {
      i := 0;
    } else {
      i := AfterSleepSlept(naps[1..], target);
      i := i + 1;
    }
  }

  /** No tick after the first of a run begins before it is due, whatever the tick number the run starts from. */
  lemma NeverEarlyAfterFirst(start: nat, period: nat, n: nat, script: seq<TickEnv>, k: nat)
    requires Monotone(start, script) && HonestSleeps(start, period, n, script) && 0 < k < |script|
    ensures script[k].began >= Due(start, period, n + k)
  {
    hide Due;
    var e, target := script[k - 1], Due(start, period, n + k);
    assert Honest(e, target) && Resumes(e, script[k]);
    if e.ended < target {
      if WakeOf(e.naps, target) == Reached {
        var i := ReachedReads(e.naps, target);
      } else {
        var i := AfterSleepSlept(e.naps, target);
        assert HonestNap(e.naps[i], target);
        RequestIsRest(e.naps[i].now, target);
      }
    }
  }

  predicate NeverEarly(ts: seq<Tick>) {
    forall k :: 0 <= k < |ts| ==> ts[k].began >= ts[k].due
  }

  /** A legal script of a run that starts with tick number n. */
  ghost predicate Legal(start: nat, period: nat, n: nat, script: seq<TickEnv>) {
    Monotone(start, script) && HonestSleeps(start, period, n, script)
  }

  /**
   Ticks never begin early in any legal run exactly when the run starts at tick 0, that is after
   initialisation: a second run without one counts an early start on its first tick.
   */
  lemma NeverEarlyIff(start: nat, period: nat, n: nat)
    requires period > 0
    ensures (forall script {:trigger Legal(start, period, n, script)} ::
               Legal(start, period, n, script) ==> NeverEarly(Trace(start, period, n, script))) <==> n == 0
  {
    if n == 0 {
      forall script {:trigger Legal(start, period, n, script)} | Legal(start, period, n, script)
        ensures NeverEarly(Trace(start, period, n, script))
      {
        FreshNeverEarly(start, period, script);
      }
    } else {
      var script := [TickEnv(false, start, 0, start, [])];
      assert Legal(start, period, n, script);
      assert n * period > 0;
      assert Trace(start, period, n, script)[0].began < Trace(start, period, n, script)[0].due;
    }
  }

  lemma FreshNeverEarly(start: nat, period: nat, script: seq<TickEnv>)
    requires Legal(start, period, 0, script)
    ensures NeverEarly(Trace(start, period, 0, script))
  {
    var ts := Trace(start, period, 0, script);
    forall k | 0 <= k < |ts| ensures ts[k].began >= ts[k].due {
      if k > 0 {
        NeverEarlyAfterFirst(start, period, 0, script, k);
      }
    }
  }

  /**
   What a second run does instead: its first tick may begin up to n periods early, which counts
   as jitter, and its second one waits for tick n + 1 of a schedule that starts now.
   */
  lemma SecondRunStalls(start: nat, period: nat, n: nat, script: seq<TickEnv>)
    requires Legal(start, period, n, script) && |script| > 0
    ensures script[0].began <= Due(start, period, n) ==>
              Jitter(Trace(start, period, n, script)[0]) == n * period - (script[0].began - start)
    ensures |script| > 1 ==> script[1].began - start >= (n + 1) * period
  {
    if |script| > 1 {
      NeverEarlyAfterFirst(start, period, n, script, 1);
    }
  }

  /** So on a fresh run jitter is lateness: the early branch of the jitter measurement is never taken. */
  lemma FreshJitterIsLateness(start: nat, period: nat, script: seq<TickEnv>, k: nat)
    requires Legal(start, period, 0, script) && k < |script|
    ensures Jitter(Trace(start, period, 0, script)[k]) == script[k].began - Due(start, period, k)
  {
    FreshNeverEarly(start, period, script);
    assert Trace(start, period, 0, script)[k].due == Due(start, period, k);
  }

  // ---------------------------------------------------------------- catching up

  /** Lateness of the start of tick k of a fresh run. */
  function Lateness(start: nat, period: nat, script: seq<TickEnv>, k: nat): int
    requires k < |script|
  {
    script[k].began - Due(start, period, k)
  }

  /** From tick m on, bodies take at most c, a tick that does not sleep hands over within w, and a sleep overshoots by at most d. */
  predicate Bounded(start: nat, period: nat, script: seq<TickEnv>, m: nat, c: nat, w: nat, d: nat) {
    forall k :: m <= k < |script| ==>
      && script[k].ended <= script[k].began + c
      && (k + 1 < |script| ==> HandsOver(script[k], script[k + 1], Due(start, period, k + 1), w, d))
  }

  predicate HandsOver(e: TickEnv, next: TickEnv, target: nat, w: nat, d: nat) {
    if e.ended < target then next.began <= target + d else next.began <= e.ended + w
  }

  /** One tick's lateness bounds the next one's. */
  lemma LatenessStep(start: nat, period: nat, script: seq<TickEnv>, m: nat, c: nat, w: nat, d: nat, k: nat)
    requires Bounded(start, period, script, m, c, w, d) && m <= k && k + 1 < |script|
    ensures Lateness(start, period, script, k + 1) <= d
            || Lateness(start, period, script, k + 1) <= Lateness(start, period, script, k) + c + w - period
  {
    assert (k + 1) * period == k * period + period;
  }

  /** After j ticks a delay has shrunk by j times the spare time of a period, or is gone. */
  lemma {:induction false} LatenessAfter(start: nat, period: nat, script: seq<TickEnv>, m: nat, c: nat, w: nat, d: nat, j: nat)
    requires Bounded(start, period, script, m, c, w, d) && m + j < |script| && c + w < period
    ensures Lateness(start, period, script, m + j) <= d
            || Lateness(start, period, script, m + j) <= Lateness(start, period, script, m) - j * (period - c - w)
  {
    if j > 0 {
      LatenessAfter(start, period, script, m, c, w, d, j - 1);
      LatenessStep(start, period, script, m, c, w, d, m + j - 1);
      assert j * (period - c - w) == (j - 1) * (period - c - w) + (period - c - w);
    }
  }

  /** The delay over the spare time of a period, rounded up. */
  function CatchUpTicks(late: int, spare: nat): nat
    requires spare > 0
  {
    if late <= 0 then 0 else (late + spare - 1) / spare
  }

  lemma CatchUpEnough(late: int, spare: nat, j: nat)
    requires spare > 0 && j >= CatchUpTicks(late, spare)
    ensures late - j * spare <= 0
  {
    var q := (late + spare - 1) / spare;
    assert late + spare - 1 == q * spare + (late + spare - 1) % spare;
    if late > 0 {
      assert j * spare >= q * spare by { NonPositiveMultiple(q - j, spare); assert (q - j) * spare == q * spare - j * spare; }
    } else {
      assert j * spare >= 0;
    }
  }

  /**
   After any delay, within the delay divided by the spare time of a period, rounded up, ticks
   start at most a wake-up latency late, and do so for the rest of the run.
   */
  lemma CatchesUp(start: nat, period: nat, script: seq<TickEnv>, m: nat, c: nat, w: nat, d: nat, k: nat)
    requires Bounded(start, period, script, m, c, w, d) && c + w < period && m < |script|
    requires m + CatchUpTicks(Lateness(start, period, script, m), period - c - w) <= k < |script|
    ensures Lateness(start, period, script, k) <= d
  {
    LatenessAfter(start, period, script, m, c, w, d, k - m);
    CatchUpEnough(Lateness(start, period, script, m), period - c - w, k - m);
  }

  /** From then on no tick overruns, if a body begun a wake-up latency late still fits its period. */
  lemma NoOverrunsAfterCatchUp(start: nat, period: nat, script: seq<TickEnv>, m: nat, c: nat, w: nat, d: nat, k: nat)
    requires Bounded(start, period, script, m, c, w, d) && c + w < period && d + c <= period && m < |script|
    requires m + CatchUpTicks(Lateness(start, period, script, m), period - c - w) <= k < |script|
    ensures Late(Trace(start, period, 0, script)[k]) == 0
  {
    CatchesUp(start, period, script, m, c, w, d, k);
    assert (k + 1) * period == k * period + period;
  }
}
