/** Upstream health scores, launch ranking, and the two strategies of racing upstream resolvers. */
module Forwarders {
  import opened Bytes
  import opened Lines

  const DEFAULT_LATENCY_SCORE_US := 50_000
  const FAILURE_PENALTY_US := 500_000
  const MAX_FAILURES := 16

  // ----- health -----

  datatype Health = Health(latency: nat, failures: nat)

  const UNMEASURED := Health(DEFAULT_LATENCY_SCORE_US, 0)

  function Max(a: nat, b: nat): nat { if a < b then b else a }
  function Min(a: nat, b: nat): nat { if a < b then a else b }

  function RankScore(h: Health): nat {
    SaturatingAdd(h.latency, SaturatingMul(h.failures, FAILURE_PENALTY_US))
  }

  /** Seven eighths of the old score and one eighth of the new sample, in integers. */
  function Average(previous: nat, sample: nat): nat {
    Max(SaturatingAdd(SaturatingMul(previous, 7), sample) / 8, 1)
  }

  function OnSuccess(h: Health, latency: nat): Health {
    Health(Average(h.latency, latency), if h.failures > 0 then h.failures - 1 else h.failures)
  }

  function OnHedgedMiss(h: Health, elapsed: nat): Health {
    if elapsed > h.latency then h.(latency := elapsed) else h
  }

  function OnFailure(h: Health): Health {
    h.(failures := Min(SaturatingAdd(h.failures, 1), MAX_FAILURES))
  }

  /**
   In numbers: a success moves the score to seven eighths of it and one eighth of the latency, at least one,
   and takes back one failure; a hedged miss can only raise the score, to the time elapsed; a failure counts,
   up to sixteen; and each failure counted weighs half a second in the ranking.
   */
  lemma HealthByNumbers(h: Health, us: nat)
    ensures UNMEASURED == Health(50_000, 0)
    ensures OnSuccess(h, us).failures == if h.failures == 0 then 0 else h.failures - 1
    ensures 7 * h.latency + us <= 0xFFFF_FFFF_FFFF_FFFF ==>
              OnSuccess(h, us).latency == if 7 * h.latency + us < 8 then 1 else (7 * h.latency + us) / 8
    ensures OnHedgedMiss(h, us) == Health(if us > h.latency then us else h.latency, h.failures)
    ensures OnFailure(h) == Health(h.latency, if h.failures < 16 then h.failures + 1 else 16)
    ensures h.latency + 500_000 * h.failures <= 0xFFFF_FFFF_FFFF_FFFF ==>
              RankScore(h) == h.latency + 500_000 * h.failures
    ensures h.latency + 500_000 * h.failures > 0xFFFF_FFFF_FFFF_FFFF ==> RankScore(h) == 0xFFFF_FFFF_FFFF_FFFF
  {
  }

  datatype Sample = Success(us: nat) | HedgedMiss(us: nat) | Failure

  function Measured(samples: seq<Sample>, i: nat): Health
    requires i <= |samples|
  {
    if i == 0 then UNMEASURED
    else match samples[i - 1]
      case Success(us) => OnSuccess(Measured(samples, i - 1), us)
      case HedgedMiss(us) => OnHedgedMiss(Measured(samples, i - 1), us)
      case Failure => OnFailure(Measured(samples, i - 1))
  }

  ghost predicate Within(samples: seq<Sample>, lo: nat, hi: nat) {
    forall k :: 0 <= k < |samples| && !samples[k].Failure? ==> (lo == 1 || lo <= samples[k].us) && samples[k].us <= hi
  }

  /** The score never leaves the range of the default and the samples, and failures stay within 16. */
  lemma {:induction false} HealthBounded(samples: seq<Sample>, lo: nat, hi: nat, i: nat)
    requires i <= |samples| && Within(samples, lo, hi)
    requires 1 <= lo <= DEFAULT_LATENCY_SCORE_US <= hi && 8 * hi <= USIZE_MAX
    ensures lo <= Measured(samples, i).latency <= hi && Measured(samples, i).failures <= MAX_FAILURES
  {
    if i == 0 {
    } else {
      HealthBounded(samples, lo, hi, i - 1);
    }
  }

  /** The score after `k` successes in a row at the same latency. */
  function Repeated(score: nat, latency: nat, k: nat): nat {
    if k == 0 then score else Average(Repeated(score, latency, k - 1), latency)
  }

  /** From above, enough successes at one latency bring the score exactly there. */
  lemma {:induction false} SettlesFromAbove(score: nat, latency: nat, k: nat)
    requires 1 <= latency <= score && 8 * score <= USIZE_MAX
    ensures latency <= Repeated(score, latency, k) <= Max(latency, if score < k then 0 else score - k)
  {
    if k == 0 {
    } else {
      SettlesFromAbove(score, latency, k - 1);
    }
  }

  /** From below, it climbs until it is less than eight short, and then stays. */
  lemma {:induction false} SettlesFromBelow(score: nat, latency: nat, k: nat)
    requires score < latency && 1 <= score && 8 * latency <= USIZE_MAX
    ensures var r := Repeated(score, latency, k);
            && score <= r <= latency
            && (r + 8 <= latency ==> r >= score + k)
            && (r + 8 > latency ==> Average(r, latency) == r)
  {
    if k == 0 {
    } else {
      SettlesFromBelow(score, latency, k - 1);
    }
  }

  /** Repeated successes at latency L reach exactly L from above, and stop within seven of it from below. */
  lemma HealthConverges(score: nat, latency: nat, k: nat)
    requires 1 <= latency && 1 <= score && 8 * score <= USIZE_MAX && 8 * latency <= USIZE_MAX
    requires k >= score && k >= latency
    ensures var r := Repeated(score, latency, k);
            && Average(r, latency) == r
            && (score >= latency ==> r == latency)
            && (score < latency ==> latency - 7 <= r <= latency)
  {
    if score >= latency {
      SettlesFromAbove(score, latency, k);
    } else {
      SettlesFromBelow(score, latency, k);
    }
  }

  // ----- ranking -----

  predicate Before(scores: seq<nat>, a: nat, b: nat)
    requires a < |scores| && b < |scores|
  {
    scores[a] < scores[b] || (scores[a] == scores[b] && a < b)
  }

  function Scores(health: seq<Health>): (s: seq<nat>)
    ensures |s| == |health| && forall u :: 0 <= u < |s| ==> s[u] == RankScore(health[u])
  {
    seq(|health|, u requires 0 <= u < |health| => RankScore(health[u]))
  }

  /** All upstreams once each, by ascending score, equal scores in configured order. */
  ghost predicate IsRanking(scores: seq<nat>, order: seq<nat>) {
    && (forall i :: 0 <= i < |order| ==> order[i] < |scores|)
    && (forall i, j :: 0 <= i < j < |order| ==> Before(scores, order[i], order[j]))
    && (forall u :: 0 <= u < |scores| ==> u in order)
  }

  function InsertRanked(scores: seq<nat>, u: nat, order: seq<nat>): seq<nat>
    requires u < |scores| && forall i :: 0 <= i < |order| ==> order[i] < |scores|
  {
    if order == [] || scores[u] < scores[order[0]] then [u] + order
    else [order[0]] + InsertRanked(scores, u, order[1..])
  }

  /** Stable insertion keeps earlier indexes ahead of equal scores. */
  lemma {:induction false} InsertRankedProperties(scores: seq<nat>, u: nat, order: seq<nat>)
    requires u < |scores| && forall i :: 0 <= i < |order| ==> order[i] < u
    requires forall i, j :: 0 <= i < j < |order| ==> Before(scores, order[i], order[j])
    ensures var r := InsertRanked(scores, u, order);
            && |r| == |order| + 1
            && (forall x :: x in r <==> x == u || x in order)
            && (forall i :: 0 <= i < |r| ==> r[i] <= u)
            && (forall i, j :: 0 <= i < j < |r| ==> Before(scores, r[i], r[j]))
  {
    if order != [] && !(scores[u] < scores[order[0]]) {
      var tail := order[1..];
      InsertRankedProperties(scores, u, tail);
      var r := InsertRanked(scores, u, tail);
      assert order == [order[0]] + tail;
      forall j | 0 <= j < |r| ensures Before(scores, order[0], r[j]) {
        assert r[j] in r;
        if r[j] in tail {
          var k :| 0 <= k < |tail| && tail[k] == r[j];
          assert Before(scores, order[0], order[k + 1]);
        }
      }
    } else {
      forall j | 0 <= j < |order| ensures Before(scores, u, order[j]) {
        assert j > 0 ==> Before(scores, order[0], order[j]);
      }
    }
  }

  /** Every score is between the bounds, and no upstream has more failures than are counted. */
  ghost predicate WithinBounds(health: seq<Health>, lo: nat, hi: nat) {
    forall u :: 0 <= u < |health| ==> lo <= health[u].latency <= hi && health[u].failures <= MAX_FAILURES
  }

  /** A latency the bounds allow for; scores are floored at one, and averaging must not saturate. */
  predicate AllowedLatency(latency: nat, lo: nat, hi: nat) {
    1 <= lo && (lo == 1 || lo <= latency) && latency <= hi && 8 * hi <= USIZE_MAX
  }

  lemma SuccessStaysBounded(h: Health, latency: nat, lo: nat, hi: nat)
    requires lo <= h.latency <= hi && h.failures <= MAX_FAILURES && AllowedLatency(latency, lo, hi)
    ensures lo <= OnSuccess(h, latency).latency <= hi && OnSuccess(h, latency).failures <= MAX_FAILURES
  {
  }

  /** A failure costs half a second of rank, up to sixteen of them, and never gains any. */
  lemma FailureCosts(h: Health)
    requires h.failures <= MAX_FAILURES
    ensures RankScore(OnFailure(h)) >= RankScore(h)
    ensures h.latency + (MAX_FAILURES * FAILURE_PENALTY_US) <= USIZE_MAX ==>
              RankScore(OnFailure(h)) == RankScore(h) + if h.failures < MAX_FAILURES then FAILURE_PENALTY_US else 0
  {
  }

  /** A success no slower than the score never costs rank. */
  lemma SuccessGains(h: Health, latency: nat)
    requires latency <= h.latency && 1 <= h.latency && 8 * h.latency <= USIZE_MAX
    ensures RankScore(OnSuccess(h, latency)) <= RankScore(h)
  {
    var g := OnSuccess(h, latency);
    assert g.latency <= h.latency && g.failures <= h.failures;
    assert g.failures * FAILURE_PENALTY_US <= h.failures * FAILURE_PENALTY_US;
  }

  // ----- racing -----

  /** What each upstream would reply, if asked and given the time. */
  datatype Reply = Answer(response: nat) | Error(error: nat)

  /**
   The environment of one resolve, event by event: whether the overall timeout fires, whether the hedge
   timer is polled first, which of the requests in flight completes otherwise, and the clock.
   */
  datatype Schedule = Schedule(timeout: nat -> bool, hedge: nat -> bool, completes: nat -> nat, elapsed: nat -> nat)

  datatype Strategy = Adaptive | Parallel

  datatype Result =
    | NoUpstream
    | Response(upstream: nat, response: nat)
    | UpstreamError(last: Option<nat>)
    | TimedOut

  /** The hedge timer fires, or the reply of an upstream comes in. */
  datatype Event = HedgeFired | ReplyOf(upstream: nat)

  /**
   What a resolve did: requests in launch order, those in flight at the end, how often a failure came in and
   the hedge timer fired, the events handled, the peak load and the latency of the answer; and the events.
   */
  datatype Trace = Trace(
    launched: seq<nat>, pending: seq<nat>, failures: nat, hedges: nat, events: nat, peak: nat, latency: nat,
    log: seq<Event>)

  ghost predicate SomeAnswers(replies: seq<Reply>) {
    exists u :: 0 <= u < |replies| && replies[u].Answer?
  }

  ghost predicate Distinct(xs: seq<nat>) {
    forall i, j :: 0 <= i < j < |xs| ==> xs[i] != xs[j]
  }

  /** Every launched upstream that is no longer in flight has failed, and the last error is one of theirs. */
  ghost predicate Racing(replies: seq<Reply>, launched: seq<nat>, inFlight: seq<nat>, last: Option<nat>) {
    && (forall u :: u in launched ==> u < |replies|)
    && Distinct(launched)
    && Distinct(inFlight)
    && (forall u :: u in inFlight ==> u in launched)
    && (forall u :: u in launched && u !in inFlight ==> replies[u].Error?)
    && (last.None? ==> forall u :: u in launched ==> u in inFlight)
    && (last.Some? ==> exists u :: u in launched && replies[u] == Error(last.value))
  }

  /** The health of every upstream while the race runs: only the failed ones have changed. */
  ghost predicate Charging(before: seq<Health>, now: seq<Health>, launched: seq<nat>, inFlight: seq<nat>) {
    && |now| == |before|
    && forall u :: 0 <= u < |now| ==>
         now[u] == if u in launched && u !in inFlight then OnFailure(before[u]) else before[u]
  }

  /** The state of a race between two events. */
  ghost predicate Between(replies: seq<Reply>, before: seq<Health>, now: seq<Health>,
                          launched: seq<nat>, inFlight: seq<nat>, last: Option<nat>)
  {
    var racing := Racing(replies, launched, inFlight, last);
    var charging := Charging(before, now, launched, inFlight);
    racing && charging
  }

  /** The health of one upstream after a resolve, given how it took part. */
  function Charged(before: Health, u: nat, hedging: bool, result: Result, trace: Trace): Health {
    var failed := if u in trace.launched && u !in trace.pending then OnFailure(before) else before;
    if !result.Response? then failed
    else if u == result.upstream then OnSuccess(before, trace.latency)
    else if hedging && u in trace.launched then OnHedgedMiss(failed, trace.latency)
    else failed
  }

  /** One resolve keeps every score between the bounds on the default and the latencies, and failures within 16. */
  lemma ChargedStaysBounded(before: Health, u: nat, hedging: bool, result: Result, trace: Trace, lo: nat, hi: nat)
    requires 1 <= lo <= before.latency <= hi && 8 * hi <= USIZE_MAX && before.failures <= MAX_FAILURES
    requires result.Response? ==> (lo == 1 || lo <= trace.latency) && trace.latency <= hi
    ensures var h := Charged(before, u, hedging, result, trace);
            lo <= h.latency <= hi && h.failures <= MAX_FAILURES
  {
  }

  /**
   In numbers: an upstream that failed counts one failure more and keeps its score; the winner counts one less
   and its score moves towards the latency; in a race the others launched are raised to the time it took; and
   who was not launched keeps everything.
   */
  lemma ChargedByPart(before: Health, u: nat, hedging: bool, result: Result, trace: Trace)
    requires before.failures <= 16 && 7 * before.latency + trace.latency <= 0xFFFF_FFFF_FFFF_FFFF
    ensures var h := Charged(before, u, hedging, result, trace);
            var (won, out) := (result.Response? && result.upstream == u, u in trace.launched && u !in trace.pending);
            && (won && u in trace.pending ==>
                  && h.failures == (if before.failures == 0 then 0 else before.failures - 1)
                  && h.latency == Max((7 * before.latency + trace.latency) / 8, 1))
            && (!won && out ==> h.failures == if before.failures < 16 then before.failures + 1 else 16)
            && (!won && !out ==> h.failures == before.failures)
            && (!won ==> h.latency == if result.Response? && hedging && u in trace.launched
                                      then Max(before.latency, trace.latency) else before.latency)
  {
  }

  /** Every upstream is charged for exactly what it did, and an answer is the answer of a launched upstream. */
  ghost predicate Accounted(
    replies: seq<Reply>, before: seq<Health>, now: seq<Health>, hedging: bool, result: Result, trace: Trace)
  {
    var charged := |now| == |before| == |replies|
                   && forall u :: 0 <= u < |now| ==> now[u] == Charged(before[u], u, hedging, result, trace);
    var answered := result.Response? ==> && result.upstream < |replies|
                                         && replies[result.upstream] == Answer(result.response)
                                         && result.upstream in trace.pending && result.upstream in trace.launched;
    var gaveUp := result.UpstreamError? ==> && trace.pending == []
                                            && forall u :: 0 <= u < |replies| ==>
                                                 replies[u].Error? && u in trace.launched;
    charged && answered && gaveUp
  }

  /**
   How a race is paced: launches follow the order, every failure and every hedge launches the next upstream
   while any is left, the load stays under the cap, and there are at most two events per upstream.
   */
  ghost predicate Paced(order: seq<nat>, cap: nat, result: Result, trace: Trace) {
    var launches := trace.launched <= order && |trace.launched| >= Min(|order|, 1 + trace.failures + trace.hedges)
                    && |trace.launched| <= 1 + trace.failures + trace.hedges;
    var count := && trace.events == trace.failures + trace.hedges + (if result.Response? then 1 else 0)
                 && trace.events <= 2 * |order| && trace.failures <= |trace.launched| - |trace.pending|;
    launches && count && trace.peak <= cap
  }

  /** One of `n` requests, whatever the schedule says. */
  function Pick(choice: nat, n: nat): (k: nat)
    requires n > 0
    ensures k < n && (choice < n ==> k == choice)
  {
    if choice < n then choice else 0
  }

  /** A whole resolve keeps every upstream within bounds that allow the latency of its answer. */
  lemma ResolveStaysBounded(replies: seq<Reply>, before: seq<Health>, now: seq<Health>, hedging: bool,
                            result: Result, trace: Trace, lo: nat, hi: nat)
    requires Accounted(replies, before, now, hedging, result, trace) && WithinBounds(before, lo, hi)
    requires 1 <= lo && 8 * hi <= USIZE_MAX && (result.Response? ==> AllowedLatency(trace.latency, lo, hi))
    ensures WithinBounds(now, lo, hi)
  {
    forall u | 0 <= u < |now| ensures lo <= now[u].latency <= hi && now[u].failures <= MAX_FAILURES {
      ChargedStaysBounded(before[u], u, hedging, result, trace, lo, hi);
    }
  }

  function Without(xs: seq<nat>, k: nat): seq<nat>
    requires k < |xs|
  {
    xs[..k] + xs[k + 1..]
  }

  // ----- the schedule a race runs by -----

  /** How many requests were launched, and those in flight. */
  datatype Flight = Flight(next: nat, pending: seq<nat>)

  function LaunchNext(order: seq<nat>, f: Flight): Flight {
    if f.next < |order| then Flight(f.next + 1, f.pending + [order[f.next]]) else f
  }

  /** All but one upstream. */
  function Less(xs: seq<nat>, u: nat): seq<nat> {
    if xs == [] then [] else if xs[0] == u then xs[1..] else [xs[0]] + Less(xs[1..], u)
  }

  /** How a resolve starts and what bounds it: the launch order, the cap, the first flight and the replies. */
  datatype Setup = Setup(order: seq<nat>, cap: nat, start: Flight, replies: seq<Reply>)

  /** A race launches the first upstream, and never has fewer than one request or more than all in flight. */
  function RaceSetup(order: seq<nat>, maxParallel: nat, replies: seq<Reply>): Setup
    requires order != []
  {
    Setup(order, Min(Max(maxParallel, 1), |order|), Flight(1, [order[0]]), replies)
  }

  /** All at once, in configured order. */
  function ParallelSetup(replies: seq<Reply>): Setup {
    var all: seq<nat> := seq(|replies|, i requires 0 <= i < |replies| => i);
    Setup(all, |replies|, Flight(|replies|, all), replies)
  }

  /**
   The hedge timer launches the next upstream; a failure takes its request out of flight and launches the
   next one if there is room.
   */
  function FlightAfter(s: Setup, f: Flight, e: Event): Flight {
    match e
    case HedgeFired => LaunchNext(s.order, f)
    case ReplyOf(u) =>
      if u < |s.replies| && s.replies[u].Answer? then f
      else
        var rest := f.(pending := Less(f.pending, u));
        if |rest.pending| < s.cap then LaunchNext(s.order, rest) else rest
  }

  /** What is in flight after some events. */
  function FlightOf(s: Setup, log: seq<Event>): Flight {
    if log == [] then s.start else FlightAfter(s, FlightOf(s, log[..|log| - 1]), log[|log| - 1])
  }

  /** The hedge timer counts: there is room for a request and an upstream left. */
  predicate MayHedge(s: Setup, f: Flight) {
    |f.pending| < s.cap && f.next < |s.order|
  }

  /**
   The event that follows some others is the one the schedule says: no timeout; the hedge timer if it fires
   while there is room for it; otherwise the reply of the request in flight that completes.
   */
  ghost predicate AsScheduled(s: Setup, env: Schedule, before: seq<Event>, e: Event) {
    var i, f := |before|, FlightOf(s, before);
    && !env.timeout(i) && f.pending != []
    && e == if env.hedge(i) && MayHedge(s, f) then HedgeFired
            else ReplyOf(f.pending[Pick(env.completes(i), |f.pending|)])
  }

  predicate IsAnswer(replies: seq<Reply>, e: Event) {
    e.ReplyOf? && e.upstream < |replies| && replies[e.upstream].Answer?
  }

  ghost predicate ScheduledAt(s: Setup, env: Schedule, log: seq<Event>, i: nat)
    requires i < |log|
  {
    AsScheduled(s, env, log[..i], log[i]) && (IsAnswer(s.replies, log[i]) ==> i == |log| - 1)
  }

  /** Every event is as scheduled, and only the last one can be an answer. */
  ghost predicate Scheduled(s: Setup, env: Schedule, log: seq<Event>) {
    forall i :: 0 <= i < |log| ==> ScheduledAt(s, env, log, i)
  }

  /** The last reply was this error; without any upstream there is none. */
  ghost predicate LastFailed(replies: seq<Reply>, log: seq<Event>, last: Option<nat>) {
    if log == [] then last.None?
    else
      && log[|log| - 1].ReplyOf?
      && var u := log[|log| - 1].upstream;
         u < |replies| && replies[u].Error? && last == Some(replies[u].error)
  }

  /**
   How a resolve ends: with the answer of the last event, timed as the clock says; with a timeout at the
   first event the schedule has one for; or with the error of the last reply when nothing is left.
   */
  ghost predicate EndsAsScheduled(s: Setup, env: Schedule, result: Result, trace: Trace) {
    var log, f := trace.log, FlightOf(s, trace.log);
    match result
    case Response(u, response) =>
      && log != [] && log[|log| - 1] == ReplyOf(u) && u < |s.replies| && s.replies[u] == Answer(response)
      && trace.latency == env.elapsed(|log| - 1)
    case TimedOut => env.timeout(|log|) && f.pending != [] && NoAnswer(s.replies, log)
    case UpstreamError(last) => f.pending == [] && f.next >= |s.order| && LastFailed(s.replies, log, last)
    case NoUpstream => false
  }

  ghost predicate NoAnswer(replies: seq<Reply>, log: seq<Event>) {
    forall i :: 0 <= i < |log| ==> !IsAnswer(replies, log[i])
  }

  /** A whole resolve by its schedule. */
  ghost predicate RunsBySchedule(s: Setup, env: Schedule, result: Result, trace: Trace) {
    var scheduled, ends := Scheduled(s, env, trace.log), EndsAsScheduled(s, env, result, trace);
    scheduled && ends && trace.events == |trace.log|
  }

  lemma {:induction false} LessIsWithout(xs: seq<nat>, k: nat)
    requires k < |xs| && Distinct(xs)
    ensures Less(xs, xs[k]) == Without(xs, k)
  {
    if k == 0 {
    } else {
      assert xs[0] != xs[k] && xs[1..][k - 1] == xs[k];
      LessIsWithout(xs[1..], k - 1);
    }
  }

  /** The events so far are as scheduled, none is an answer, and they leave in flight what the trace says. */
  ghost predicate OnSchedule(s: Setup, env: Schedule, t: Trace, last: Option<nat>) {
    var events := |t.log| == t.events && Scheduled(s, env, t.log) && NoAnswer(s.replies, t.log);
    var flight := FlightOf(s, t.log) == Flight(|t.launched|, t.pending);
    var error := t.pending == [] ==> LastFailed(s.replies, t.log, last) && |t.launched| >= |s.order|;
    events && flight && error && (t.pending != [] ==> s.cap >= 1)
  }

  lemma LogGrows(s: Setup, env: Schedule, log: seq<Event>, e: Event)
    requires Scheduled(s, env, log) && NoAnswer(s.replies, log) && AsScheduled(s, env, log, e)
    ensures Scheduled(s, env, log + [e]) && FlightOf(s, log + [e]) == FlightAfter(s, FlightOf(s, log), e)
    ensures !IsAnswer(s.replies, e) ==> NoAnswer(s.replies, log + [e])
  {
    var log' := log + [e];
    assert log'[..|log|] == log;
    forall i | 0 <= i < |log'| ensures ScheduledAt(s, env, log', i) {
      if i < |log| {
        assert log'[..i] == log[..i];
        assert ScheduledAt(s, env, log, i) && !IsAnswer(s.replies, log[i]);
      }
    }
  }

  lemma HedgeOnSchedule(s: Setup, env: Schedule, t: Trace, last: Option<nat>)
    requires OnSchedule(s, env, t, last) && t.pending != []
    requires !env.timeout(t.events) && env.hedge(t.events) && |t.pending| < s.cap && |t.launched| < |s.order|
    ensures OnSchedule(s, env, Launched(Hedged(t), s.order[|t.launched|]), last)
  {
    LogGrows(s, env, t.log, HedgeFired);
  }

  /** The trace after a failure. */
  function AfterFailure(s: Setup, t: Trace, k: nat): Trace
    requires k < |t.pending|
  {
    var failed := Failed(t, k);
    if |failed.pending| < s.cap && |failed.launched| < |s.order|
    then Launched(failed, s.order[|failed.launched|]) else failed
  }

  lemma FailureOnSchedule(s: Setup, env: Schedule, t: Trace, last: Option<nat>, k: nat)
    requires OnSchedule(s, env, t, last) && t.pending != [] && Distinct(t.pending)
    requires !env.timeout(t.events) && !(env.hedge(t.events) && |t.pending| < s.cap && |t.launched| < |s.order|)
    requires k == Pick(env.completes(t.events), |t.pending|)
    requires t.pending[k] < |s.replies| && s.replies[t.pending[k]].Error?
    ensures OnSchedule(s, env, AfterFailure(s, t, k), Some(s.replies[t.pending[k]].error))
  {
    LessIsWithout(t.pending, k);
    LogGrows(s, env, t.log, ReplyOf(t.pending[k]));
  }

  lemma AnswerOnSchedule(s: Setup, env: Schedule, t: Trace, last: Option<nat>, u: nat)
    requires OnSchedule(s, env, t, last) && t.pending != []
    requires !env.timeout(t.events) && !(env.hedge(t.events) && |t.pending| < s.cap && |t.launched| < |s.order|)
    requires u == t.pending[Pick(env.completes(t.events), |t.pending|)]
    requires u < |s.replies| && s.replies[u].Answer?
    ensures RunsBySchedule(s, env, Response(u, s.replies[u].response), Answered(t, u, env.elapsed(t.events)))
  {
    LogGrows(s, env, t.log, ReplyOf(u));
  }

  lemma TimeoutOnSchedule(s: Setup, env: Schedule, t: Trace, last: Option<nat>)
    requires OnSchedule(s, env, t, last) && t.pending != [] && env.timeout(t.events)
    ensures RunsBySchedule(s, env, TimedOut, t)
  {
  }

  lemma GivesUpOnSchedule(s: Setup, env: Schedule, t: Trace, last: Option<nat>)
    requires OnSchedule(s, env, t, last) && t.pending == []
    ensures RunsBySchedule(s, env, UpstreamError(last), t)
  {
  }

  lemma Drop(replies: seq<Reply>, before: seq<Health>, now: seq<Health>,
             launched: seq<nat>, inFlight: seq<nat>, last: Option<nat>, k: nat)
    requires Between(replies, before, now, launched, inFlight, last)
    requires k < |inFlight| && inFlight[k] < |now| && inFlight[k] < |replies| && replies[inFlight[k]].Error?
    ensures var u := inFlight[k];
            Between(replies, before, now[u := OnFailure(now[u])], launched, Without(inFlight, k),
                    Some(replies[u].error))
  {
  }

  /** A race in progress: its state, its pace so far, and the launches still owed to failures and hedges. */
  ghost predicate Running(order: seq<nat>, replies: seq<Reply>, before: seq<Health>, now: seq<Health>,
                          cap: nat, t: Trace, last: Option<nat>, owed: nat)
  {
    var between := Between(replies, before, now, t.launched, t.pending, last);
    var launches := t.launched <= order && |t.launched| + owed >= Min(|order|, 1 + t.failures + t.hedges)
                    && |t.launched| + owed <= 1 + t.failures + t.hedges;
    var count := && t.events == t.failures + t.hedges && t.failures + |t.pending| <= |t.launched|
                 && t.hedges < |t.launched| + owed && |t.pending| <= cap && t.peak <= cap;
    between && launches && count
  }

  /** The launch order: every upstream once. */
  ghost predicate IsOrder(order: seq<nat>, n: nat) {
    var once := Distinct(order) && forall i :: 0 <= i < |order| ==> order[i] < n;
    var all := forall u :: 0 <= u < n ==> u in order;
    |order| == n && once && all
  }

  /** Sends the query to the next upstream. */
  function Launched(t: Trace, u: nat): Trace {
    t.(launched := t.launched + [u], pending := t.pending + [u], peak := Max(t.peak, |t.pending| + 1))
  }

  function Failed(t: Trace, k: nat): Trace
    requires k < |t.pending|
  {
    t.(pending := Without(t.pending, k), failures := t.failures + 1, events := t.events + 1,
       log := t.log + [ReplyOf(t.pending[k])])
  }

  function Answered(t: Trace, u: nat, latency: nat): Trace {
    t.(events := t.events + 1, latency := latency, log := t.log + [ReplyOf(u)])
  }

  function Hedged(t: Trace): Trace {
    t.(hedges := t.hedges + 1, events := t.events + 1, log := t.log + [HedgeFired])
  }

  lemma LaunchBetween(replies: seq<Reply>, before: seq<Health>, now: seq<Health>,
                      launched: seq<nat>, inFlight: seq<nat>, last: Option<nat>, u: nat)
    requires Between(replies, before, now, launched, inFlight, last) && u !in launched && u < |replies|
    ensures Between(replies, before, now, launched + [u], inFlight + [u], last)
  {
    if last.Some? {
      var w :| w in launched && replies[w] == Error(last.value);
      assert w in launched + [u];
    }
  }

  lemma LaunchStep(order: seq<nat>, replies: seq<Reply>, before: seq<Health>, now: seq<Health>,
                   cap: nat, t: Trace, last: Option<nat>, owed: nat)
    requires Running(order, replies, before, now, cap, t, last, owed) && IsOrder(order, |replies|)
    requires |t.launched| < |order| && |t.pending| < cap && owed > 0
    ensures Running(order, replies, before, now, cap, Launched(t, order[|t.launched|]), last, owed - 1)
  {
    var u := order[|t.launched|];
    assert t.launched == order[..|t.launched|];
    assert u !in t.launched;
    LaunchBetween(replies, before, now, t.launched, t.pending, last, u);
  }

  lemma FailStep(order: seq<nat>, replies: seq<Reply>, before: seq<Health>, now: seq<Health>,
                 cap: nat, t: Trace, last: Option<nat>, k: nat)
    requires Running(order, replies, before, now, cap, t, last, 0) && |replies| == |now|
    requires k < |t.pending| && t.pending[k] < |replies| && replies[t.pending[k]].Error?
    ensures var u := t.pending[k];
            Running(order, replies, before, now[u := OnFailure(now[u])], cap, Failed(t, k), Some(replies[u].error), 1)
  {
    Drop(replies, before, now, t.launched, t.pending, last, k);
  }

  /** With nothing left to launch, nothing is owed. */
  lemma NothingOwed(order: seq<nat>, replies: seq<Reply>, before: seq<Health>, now: seq<Health>,
                    cap: nat, t: Trace, last: Option<nat>)
    requires Running(order, replies, before, now, cap, t, last, 1) && |t.launched| == |order|
    requires t.hedges < |order|
    ensures Running(order, replies, before, now, cap, t, last, 0)
  {
  }

  /** Stopping with nothing in flight and nothing left to launch means that every upstream failed. */
  lemma GivesUp(replies: seq<Reply>, before: seq<Health>, now: seq<Health>, hedging: bool, t: Trace, last: Option<nat>)
    requires Between(replies, before, now, t.launched, [], last) && |replies| == |now| && t.pending == []
    requires forall u :: 0 <= u < |replies| ==> u in t.launched
    ensures replies != [] ==> last.Some? && exists u :: 0 <= u < |replies| && replies[u] == Error(last.value)
    ensures Accounted(replies, before, now, hedging, UpstreamError(last), t)
  {
    if replies != [] { assert 0 in t.launched; }
  }

  lemma RaceStarts(order: seq<nat>, replies: seq<Reply>, now: seq<Health>, cap: nat)
    requires IsOrder(order, |replies|) && order != [] && |now| == |replies| && cap >= 1
    ensures Running(order, replies, now, now, cap, Trace([order[0]], [order[0]], 0, 0, 0, 1, 0, []), None, 0)
  {
  }

  lemma HedgeStep(order: seq<nat>, replies: seq<Reply>, before: seq<Health>, now: seq<Health>,
                  cap: nat, t: Trace, last: Option<nat>)
    requires Running(order, replies, before, now, cap, t, last, 0) && IsOrder(order, |replies|)
    requires |t.launched| < |order| && |t.pending| < cap
    ensures Running(order, replies, before, now, cap, Launched(Hedged(t), order[|t.launched|]), last, 0)
  {
    LaunchStep(order, replies, before, now, cap, Hedged(t), last, 1);
  }

  lemma RaceGivesUp(order: seq<nat>, replies: seq<Reply>, before: seq<Health>, now: seq<Health>,
                    cap: nat, t: Trace, last: Option<nat>)
    requires Running(order, replies, before, now, cap, t, last, 0) && IsOrder(order, |replies|) && |now| == |replies|
    requires t.pending == [] && |t.launched| >= |order| > 0
    ensures Paced(order, cap, UpstreamError(last), t)
    ensures last.Some? && exists u :: 0 <= u < |replies| && replies[u] == Error(last.value)
    ensures Accounted(replies, before, now, true, UpstreamError(last), t)
  {
    assert t.launched == order;
    GivesUp(replies, before, now, true, t, last);
  }

  lemma RaceRunsOut(order: seq<nat>, replies: seq<Reply>, before: seq<Health>, now: seq<Health>,
                    cap: nat, t: Trace, last: Option<nat>)
    requires Running(order, replies, before, now, cap, t, last, 0) && |now| == |replies| == |order|
    ensures Paced(order, cap, TimedOut, t) && (t.pending != [] ==> t.events < 2 * |order|)
    ensures Accounted(replies, before, now, true, TimedOut, t)
  {
  }

  /** In numbers: a race starts with one request and has up to the set number in flight, parallel with all. */
  lemma SetupsByNumbers(order: seq<nat>, most: nat, replies: seq<Reply>)
    requires order != []
    ensures RaceSetup(order, most, replies) ==
              Setup(order, if most < 1 then 1 else if most > |order| then |order| else most,
                    Flight(1, [order[0]]), replies)
    ensures ParallelSetup(replies).order == ParallelSetup(replies).start.pending
    ensures |ParallelSetup(replies).order| == ParallelSetup(replies).start.next == |replies|
    ensures forall u :: 0 <= u < |replies| ==> ParallelSetup(replies).order[u] == u
  {
  }

  /**
   What hedging is for: two upstreams answer, the first one is slow, the timer fires and the second one's reply
   comes in first. Then the second answer is taken, at the time of the second event.
   */
  lemma HedgeWins(env: Schedule, slow: nat, fast: nat, result: Result, trace: Trace)
    requires RunsBySchedule(RaceSetup([0, 1], 2, [Answer(slow), Answer(fast)]), env, result, trace)
    requires !env.timeout(0) && !env.timeout(1) && env.hedge(0) && env.completes(1) == 1
    ensures result == Response(1, fast) && trace.latency == env.elapsed(1)
  {
    var s, log := RaceSetup([0, 1], 2, [Answer(slow), Answer(fast)]), trace.log;
    assert FlightOf(s, []) == Flight(1, [0]);
    if log != [] {
      assert ScheduledAt(s, env, log, 0) && log[..0] == [];
      assert log[0] == HedgeFired;
      assert FlightOf(s, [HedgeFired]) == Flight(2, [0, 1]) by {
        assert [HedgeFired][..0] == [];
      }
      if |log| > 1 {
        assert ScheduledAt(s, env, log, 1) && log[..1] == [HedgeFired];
        assert log[1] == ReplyOf(1) && IsAnswer(s.replies, log[1]);
      }
    }
    assert |log| == 1 ==> log == [HedgeFired];
  }

  /** The upstreams raced in the order of their scores. */
  ghost predicate RacesByRanking(scores: seq<nat>, maxParallel: nat, replies: seq<Reply>, env: Schedule,
                                 result: Result, trace: Trace)
  {
    exists ranking: seq<nat> :: ranking != [] && IsRanking(scores, ranking)
                                && RunsBySchedule(RaceSetup(ranking, maxParallel, replies), env, result, trace)
  }

  class Forwarder {
    var health: seq<Health>
    const maxAdaptiveParallel: nat

    constructor (upstreams: nat, maxAdaptiveParallel: nat)
      ensures health == seq(upstreams, _ => UNMEASURED) && this.maxAdaptiveParallel == maxAdaptiveParallel
    {
      health := seq(upstreams, _ => UNMEASURED);
      this.maxAdaptiveParallel := maxAdaptiveParallel;
    }

    /** A stable sort of the upstream indexes by rank score. */
    method AdaptiveOrder() returns (order: seq<nat>)
      ensures IsRanking(Scores(health), order) && |order| == |health|
      ensures forall i, j :: 0 <= i < j < |order| ==>
                || RankScore(health[order[i]]) < RankScore(health[order[j]])
                || (RankScore(health[order[i]]) == RankScore(health[order[j]]) && order[i] < order[j])
    {
      order := [];
      var scores := Scores(health);
      for u := 0 to |health|
        invariant |order| == u && forall i :: 0 <= i < |order| ==> order[i] < u
        invariant forall i, j :: 0 <= i < j < |order| ==> Before(scores, order[i], order[j])
        invariant forall x :: 0 <= x < u ==> x in order
      {
        InsertRankedProperties(scores, u, order);
        order := InsertRanked(scores, u, order);
      }
    }

    /**
     A success moves only this upstream's health; all scores stay within any bounds that allow the latency,
     and a success no slower than its score keeps the upstream ahead of all it was ahead of.
     */
    method RecordSuccess(u: nat, latency: nat)
      requires u < |health|
      modifies this
      ensures health == old(health)[u := OnSuccess(old(health)[u], latency)]
      ensures forall lo, hi :: AllowedLatency(latency, lo, hi) && WithinBounds(old(health), lo, hi) ==>
                WithinBounds(health, lo, hi)
      ensures latency <= old(health)[u].latency && 1 <= old(health)[u].latency
              && 8 * old(health)[u].latency <= USIZE_MAX ==>
                forall v :: 0 <= v < |health| && v != u && Before(Scores(old(health)), u, v) ==>
                  Before(Scores(health), u, v)
    {
      ghost var before := health[u];
      health := health[u := OnSuccess(health[u], latency)];
      forall lo, hi | AllowedLatency(latency, lo, hi) && WithinBounds(old(health), lo, hi)
        ensures WithinBounds(health, lo, hi)
      {
        SuccessStaysBounded(before, latency, lo, hi);
      }
      if latency <= before.latency && 1 <= before.latency && 8 * before.latency <= USIZE_MAX {
        SuccessGains(before, latency);
      }
    }

    /**
     A failure moves only this upstream's health; all scores stay within their bounds, the rank score rises
     by half a second unless sixteen failures are counted already, and whoever ranked ahead still does.
     */
    method RecordFailure(u: nat)
      requires u < |health|
      modifies this
      ensures health == old(health)[u := OnFailure(old(health)[u])]
      ensures forall lo, hi :: WithinBounds(old(health), lo, hi) ==> WithinBounds(health, lo, hi)
      ensures old(health)[u].failures < MAX_FAILURES
              && old(health)[u].latency + MAX_FAILURES * FAILURE_PENALTY_US <= USIZE_MAX ==>
                Scores(health)[u] == Scores(old(health))[u] + FAILURE_PENALTY_US
      ensures old(health)[u].failures <= MAX_FAILURES ==>
                forall v :: 0 <= v < |health| && v != u && Before(Scores(old(health)), v, u) ==>
                  Before(Scores(health), v, u)
    {
      ghost var before := health[u];
      health := health[u := OnFailure(health[u])];
      if before.failures <= MAX_FAILURES {
        FailureCosts(before);
      }
    }

    /** Every launched upstream but the winner is charged at least the time the winner took. */
    method RecordHedgedMisses(launched: seq<nat>, winner: nat, elapsed: nat)
      requires Distinct(launched) && forall u :: u in launched ==> u < |health|
      modifies this
      ensures |health| == |old(health)|
      ensures forall u :: 0 <= u < |health| ==>
                health[u] == if u in launched && u != winner then OnHedgedMiss(old(health)[u], elapsed)
                             else old(health)[u]
      ensures forall u :: 0 <= u < |health| ==>
                && health[u].failures == old(health)[u].failures
                && health[u].latency == if u in launched && u != winner && elapsed > old(health)[u].latency
                                        then elapsed else old(health)[u].latency
    {
      for i := 0 to |launched|
        invariant |health| == |old(health)|
        invariant forall u :: 0 <= u < |health| ==>
                    health[u] == if u in launched[..i] && u != winner then OnHedgedMiss(old(health)[u], elapsed)
                                 else old(health)[u]
      {
        var u := launched[i];
        assert launched[..i + 1] == launched[..i] + [u];
        assert u in launched && u !in launched[..i];
        if u != winner {
          health := health[u := OnHedgedMiss(health[u], elapsed)];
        }
      }
      assert launched[..|launched|] == launched;
    }

    /** The bookkeeping of an answer in the adaptive race. */
    method Win(ghost order: seq<nat>, replies: seq<Reply>, ghost before: seq<Health>, ghost cap: nat,
               t: Trace, ghost last: Option<nat>, u: nat, latency: nat)
      returns (result: Result, trace: Trace)
      requires |replies| == |health| == |order| && Running(order, replies, before, health, cap, t, last, 0)
      requires u in t.pending && u < |replies| && replies[u].Answer?
      modifies this
      ensures result == Response(u, replies[u].response) && Paced(order, cap, result, trace)
      ensures trace == Answered(t, u, latency)
      ensures Accounted(replies, before, health, true, result, trace)
    {
      RecordSuccess(u, latency);
      RecordHedgedMisses(t.launched, u, latency);
      return Response(u, replies[u].response), Answered(t, u, latency);
    }

    /** The bookkeeping of a failure: charge it, and launch the next upstream if there is one and room for it. */
    method Lose(order: seq<nat>, replies: seq<Reply>, ghost before: seq<Health>, cap: nat,
                t: Trace, ghost last: Option<nat>, k: nat)
      returns (t': Trace, lastErr: Option<nat>)
      requires |replies| == |health| && IsOrder(order, |replies|)
      requires Running(order, replies, before, health, cap, t, last, 0)
      requires k < |t.pending| && t.pending[k] < |replies| && replies[t.pending[k]].Error?
      modifies this
      ensures |health| == |replies| && Running(order, replies, before, health, cap, t', lastErr, 0)
      ensures 2 * |t'.launched| - |t'.pending| > 2 * |t.launched| - |t.pending|
      ensures lastErr == Some(replies[t.pending[k]].error)
      ensures forall s: Setup :: s.order == order && s.cap == cap ==> t' == AfterFailure(s, t, k)
    {
      FailStep(order, replies, before, health, cap, t, last, k);
      RecordFailure(t.pending[k]);
      lastErr := Some(replies[t.pending[k]].error);
      t' := Failed(t, k);
      if |t'.pending| < cap && |t'.launched| < |order| {
        LaunchStep(order, replies, before, health, cap, t', lastErr, 1);
        t' := Launched(t', order[|t'.launched|]);
      } else {
        NothingOwed(order, replies, before, health, cap, t', lastErr);
      }
    }

    /**
     The adaptive race over a launch order, under any schedule: it is paced as above with never less than
     one request at a time, and unless the overall timeout fires it answers exactly when some upstream
     would, and gives up only after all have failed. The next upstream is the one after the launched ones.
     */
    method Race(order: seq<nat>, replies: seq<Reply>, env: Schedule) returns (result: Result, trace: Trace)
      requires |replies| == |health| && IsOrder(order, |replies|) && order != []
      modifies this
      ensures !result.NoUpstream?
      ensures result.TimedOut? ==> exists e :: 0 <= e < 2 * |replies| && env.timeout(e)
      ensures result.UpstreamError? ==>
                result.last.Some? && exists u :: 0 <= u < |replies| && replies[u] == Error(result.last.value)
      ensures RunsBySchedule(RaceSetup(order, maxAdaptiveParallel, replies), env, result, trace)
      ensures Paced(order, Min(Max(maxAdaptiveParallel, 1), |order|), result, trace)
      ensures Accounted(replies, old(health), health, true, result, trace)
    {
      var cap := Min(Max(maxAdaptiveParallel, 1), |order|);
      var t := Trace([order[0]], [order[0]], 0, 0, 0, 1, 0, []);
      var lastErr: Option<nat> := None;
      ghost var s := RaceSetup(order, maxAdaptiveParallel, replies);
      RaceStarts(order, replies, health, cap);
      while true
        invariant |health| == |replies| && Running(order, replies, old(health), health, cap, t, lastErr, 0)
        invariant OnSchedule(s, env, t, lastErr)
        decreases 2 * |order| - 2 * |t.launched| + |t.pending|
      {
        if t.pending == [] {
          // nothing is left to launch: a failure that leaves nothing in flight has launched the next upstream
          assert |t.launched| >= |order|;
          RaceGivesUp(order, replies, old(health), health, cap, t, lastErr);
          GivesUpOnSchedule(s, env, t, lastErr);
          return UpstreamError(lastErr), t;
        }
        if env.timeout(t.events) {
          RaceRunsOut(order, replies, old(health), health, cap, t, lastErr);
          TimeoutOnSchedule(s, env, t, lastErr);
          return TimedOut, t;
        }
        if env.hedge(t.events) && |t.pending| < cap && |t.launched| < |order| {
          HedgeStep(order, replies, old(health), health, cap, t, lastErr);
          HedgeOnSchedule(s, env, t, lastErr);
          t := Launched(Hedged(t), order[|t.launched|]);
          continue;
        }
        var k := Pick(env.completes(t.events), |t.pending|);
        var u := t.pending[k];
        assert u in t.pending && u in t.launched;
        if replies[u].Answer? {
          AnswerOnSchedule(s, env, t, lastErr, u);
          result, trace := Win(order, replies, old(health), cap, t, lastErr, u, env.elapsed(t.events));
          return;
        }
        FailureOnSchedule(s, env, t, lastErr, k);
        t, lastErr := Lose(order, replies, old(health), cap, t, lastErr, k);
      }
    }

    /** Adaptive strategy: the race over the ranking by health. */
    method ResolveAdaptive(replies: seq<Reply>, env: Schedule) returns (result: Result, trace: Trace, ranking: seq<nat>)
      requires |replies| == |health|
      modifies this
      ensures result.NoUpstream? <==> replies == []
      ensures result.TimedOut? ==> exists e :: 0 <= e < 2 * |replies| && env.timeout(e)
      ensures !result.TimedOut? ==> (result.Response? <==> SomeAnswers(replies))
      ensures result.UpstreamError? ==>
                result.last.Some? && exists u :: 0 <= u < |replies| && replies[u] == Error(result.last.value)
      ensures ranking != [] ==> RunsBySchedule(RaceSetup(ranking, maxAdaptiveParallel, replies), env, result, trace)
      ensures IsRanking(Scores(old(health)), ranking) && Paced(ranking, Max(maxAdaptiveParallel, 1), result, trace)
      ensures Accounted(replies, old(health), health, true, result, trace)
    {
      ranking := AdaptiveOrder();
      if ranking == [] {
        return NoUpstream, Trace([], [], 0, 0, 0, 0, 0, []), [];
      }
      result, trace := Race(ranking, replies, env);
    }

    /** Parallel strategy: every upstream at once; the first answer wins, and failure needs them all to fail. */
    method ResolveParallel(replies: seq<Reply>, env: Schedule) returns (result: Result, trace: Trace)
      requires |replies| == |health|
      modifies this
      ensures !result.NoUpstream?
      ensures result.TimedOut? ==> exists e :: 0 <= e < |replies| && env.timeout(e)
      ensures !result.TimedOut? ==> (result.Response? <==> SomeAnswers(replies))
      ensures result.UpstreamError? ==>
                if replies == [] then result.last.None?
                else result.last.Some? && exists u :: 0 <= u < |replies| && replies[u] == Error(result.last.value)
      ensures trace.events <= |replies| && |trace.launched| == |replies|
      ensures RunsBySchedule(ParallelSetup(replies), env, result, trace)
      ensures Accounted(replies, old(health), health, false, result, trace)
    {
      ghost var s := ParallelSetup(replies);
      var all: seq<nat> := seq(|replies|, i requires 0 <= i < |replies| => i);
      assert forall u :: 0 <= u < |replies| ==> all[u] == u;
      var t := Trace(all, all, 0, 0, 0, |replies|, 0, []);
      var lastErr: Option<nat> := None;
      while t.pending != []
        invariant Between(replies, old(health), health, all, t.pending, lastErr)
        invariant t.launched == all && t.events + |t.pending| == |replies| && OnSchedule(s, env, t, lastErr)
        decreases |t.pending|
      {
        if env.timeout(t.events) {
          TimeoutOnSchedule(s, env, t, lastErr);
          return TimedOut, t;
        }
        var k := Pick(env.completes(t.events), |t.pending|);
        var u := t.pending[k];
        assert u in t.pending && u in all;
        if replies[u].Answer? {
          AnswerOnSchedule(s, env, t, lastErr, u);
          RecordSuccess(u, env.elapsed(t.events));
          return Response(u, replies[u].response), Answered(t, u, env.elapsed(t.events));
        }
        FailureOnSchedule(s, env, t, lastErr, k);
        Drop(replies, old(health), health, all, t.pending, lastErr, k);
        RecordFailure(u);
        lastErr := Some(replies[u].error);
        t := Failed(t, k);
      }
      forall u | 0 <= u < |replies| ensures u in all {
        assert all[u] == u;
      }
      GivesUpOnSchedule(s, env, t, lastErr);
      GivesUp(replies, old(health), health, false, t, lastErr);
      return UpstreamError(lastErr), t;
    }

    /** A lone upstream is asked directly, whatever the strategy. */
    method ResolveOne(replies: seq<Reply>, env: Schedule) returns (result: Result, trace: Trace)
      requires |replies| == |health| == 1
      modifies this
      ensures if env.timeout(0) then result.TimedOut? else
                result == match replies[0]
                  case Answer(response) => Response(0, response)
                  case Error(error) => UpstreamError(Some(error))
      ensures trace.events <= 1 && RunsBySchedule(ParallelSetup(replies), env, result, trace)
      ensures Accounted(replies, old(health), health, false, result, trace)
    {
      ghost var s := ParallelSetup(replies);
      var t := Trace([0], [0], 0, 0, 0, 1, 0, []);
      assert OnSchedule(s, env, t, None);
      if env.timeout(0) {
        return TimedOut, t;
      }
      match replies[0] {
        case Answer(response) =>
          AnswerOnSchedule(s, env, t, None, 0);
          RecordSuccess(0, env.elapsed(0));
          return Response(0, response), Answered(t, 0, env.elapsed(0));
        case Error(error) =>
          FailureOnSchedule(s, env, t, None, 0);
          RecordFailure(0);
          return UpstreamError(Some(error)), Failed(t, 0);
      }
    }

    /**
     Whichever strategy and schedule, unless the overall timeout fires a query is answered exactly when
     some upstream answers it, and an upstream error is reported only after all of them failed.
     */
    method Resolve(strategy: Strategy, replies: seq<Reply>, env: Schedule) returns (result: Result, trace: Trace)
      requires |replies| == |health|
      modifies this
      ensures !result.TimedOut? ==> (result.Response? <==> SomeAnswers(replies))
      ensures result.TimedOut? ==> exists e :: 0 <= e < 2 * |replies| && env.timeout(e)
      ensures result.UpstreamError? && replies != [] ==>
                result.last.Some? && exists u :: 0 <= u < |replies| && replies[u] == Error(result.last.value)
      ensures exists hedging :: Accounted(replies, old(health), health, hedging, result, trace)
      ensures strategy == Parallel || |replies| == 1 ==> RunsBySchedule(ParallelSetup(replies), env, result, trace)
      ensures strategy == Adaptive && |replies| > 1 ==> RacesByRanking(Scores(old(health)), maxAdaptiveParallel,
                                                                       replies, env, result, trace)
    {
      if |replies| == 1 {
        result, trace := ResolveOne(replies, env);
        if replies[0].Error? {
          assert replies[0] == Error(replies[0].error);
        }
        return;
      }
      match strategy
      case Adaptive =>
        var ranking;
        result, trace, ranking := ResolveAdaptive(replies, env);
        if |replies| > 1 {
          assert 0 in ranking;
        }
      case Parallel =>
        result, trace := ResolveParallel(replies, env);
    }
  }
}
