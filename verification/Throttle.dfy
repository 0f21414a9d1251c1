/** The login throttle: per-client failure windows, and how many failures any minute can hold. */
module Throttle {
  import opened Bytes
  import opened Lines

  type Client = nat

  /** Moments and durations are in nanoseconds of a clock that never goes back. */
  const SECOND := 1_000_000_000
  const LOGIN_FAILURE_WINDOW := 60 * SECOND
  const LOGIN_MAX_FAILURES := 5
  const LOGIN_MAX_TRACKED_CLIENTS := 4096
  const LOGIN_MAX_CONCURRENT := 2
  const U8_MAX := 255

  datatype FailedLogins = FailedLogins(count: nat, windowStarted: nat)

  type Failures = map<Client, FailedLogins>

  function Elapsed(f: FailedLogins, now: nat): nat {
    SaturatingSub(now, f.windowStarted)
  }

  predicate Active(f: FailedLogins, now: nat) {
    Elapsed(f, now) < LOGIN_FAILURE_WINDOW
  }

  /** Forgets the clients whose window is over, once the table is full. */
  function Pruned(m: Failures, now: nat): Failures {
    if |m| >= LOGIN_MAX_TRACKED_CLIENTS then map c | c in m && Active(m[c], now) :: m[c] else m
  }

  /** The table after an attempt was checked. */
  function AfterCheck(m: Failures, c: Client, now: nat): Failures {
    var p := Pruned(m, now);
    if c in p && !Active(p[c], now) then p - {c} else p
  }

  /** Seconds to wait, if the attempt is refused. */
  function Refusal(m: Failures, c: Client, now: nat): Option<nat> {
    var p := AfterCheck(m, c, now);
    if c in p && p[c].count >= LOGIN_MAX_FAILURES then
      var left := SaturatingSub(LOGIN_FAILURE_WINDOW, Elapsed(p[c], now)) / SECOND;
      Some(if left < 1 then 1 else left)
    else if c !in p && |p| >= LOGIN_MAX_TRACKED_CLIENTS then Some(LOGIN_FAILURE_WINDOW / SECOND)
    else None
  }

  function AfterFailure(m: Failures, c: Client, now: nat): Failures {
    var f := if c in m && Active(m[c], now) then m[c] else FailedLogins(0, now);
    m[c := f.(count := if f.count < U8_MAX then f.count + 1 else U8_MAX)]
  }

  /** What the throttle holds against a client at a moment: expired windows count for nothing. */
  function Held(m: Failures, c: Client, now: nat): nat {
    if c in m && Active(m[c], now) then m[c].count else 0
  }

  /** Pruning and expiry are invisible: a check changes what is held against nobody, then or later. */
  lemma CheckIsInvisible(m: Failures, c: Client, now: nat, other: Client, later: nat)
    requires now <= later
    ensures Held(AfterCheck(m, c, now), other, later) == Held(m, other, later)
  {
  }

  /** The clients whose window of a minute is not over. */
  ghost function Live(m: Failures, now: nat): set<Client> {
    set x | x in m && now < m[x].windowStarted + 60_000_000_000
  }

  /** A check forgets the clients whose minute is over once 4096 are tracked, and this one in any case. */
  lemma CheckByClient(m: Failures, c: Client, now: nat, x: Client)
    ensures x in AfterCheck(m, c, now) <==> x in m && (x in Live(m, now) || (|m| < 4096 && x != c))
    ensures x in AfterCheck(m, c, now) ==> AfterCheck(m, c, now)[x] == m[x]
  {
  }

  /** A failure counts in the minute that runs, up to 255, or starts a new one; no other client is touched. */
  lemma FailureByClient(m: Failures, c: Client, now: nat, x: Client)
    ensures x in AfterFailure(m, c, now) <==> x == c || x in m
    ensures x != c && x in m ==> AfterFailure(m, c, now)[x] == m[x]
    ensures AfterFailure(m, c, now)[c] ==
              if c !in Live(m, now) then FailedLogins(1, now)
              else FailedLogins(if m[c].count < 255 then m[c].count + 1 else 255, m[c].windowStarted)
  {
  }

  /**
   An attempt is refused exactly if the client has five failures in a minute that runs, or no minute of its
   runs and those of 4096 others do.
   */
  lemma RefusedIff(m: Failures, c: Client, now: nat)
    ensures Refusal(m, c, now).Some? <==>
              || (c in Live(m, now) && m[c].count >= 5)
              || (c !in Live(m, now) && |Live(m, now)| >= 4096)
  {
    var p, live := AfterCheck(m, c, now), Live(m, now);
    assert |m| == |m.Keys| && |p| == |p.Keys|;
    FewerThan(p.Keys, m.Keys);
    FewerThan(live, m.Keys);
    if |m| >= 4096 {
      assert p.Keys == live;
    }
  }

  lemma FewerThan(a: set<Client>, b: set<Client>)
    requires a <= b
    ensures |a| <= |b|
  {
    assert |b| == |a| + |b - a| by {
      assert b == a + (b - a);
    }
  }

  /**
   The wait announced is the time left in whole seconds, cut off, and never under one: a second more always
   suffices, and waiting exactly as announced suffices exactly if nothing was cut off.
   */
  lemma WaitAnnounced(m: Failures, c: Client, now: nat)
    requires Held(m, c, now) >= LOGIN_MAX_FAILURES && m[c].windowStarted <= now
    ensures Refusal(m, c, now).Some?
    ensures var left, wait := LOGIN_FAILURE_WINDOW - Elapsed(m[c], now), Refusal(m, c, now).value;
            && 1 <= wait <= 60
            && Held(m, c, now + (wait + 1) * SECOND) == 0
            && (Held(m, c, now + wait * SECOND) == 0 <==> left <= wait * SECOND)
            && (left <= wait * SECOND <==> left % SECOND == 0 || left < SECOND)
  {
  }

  // ----- runs -----

  /** What happens at the login endpoint. */
  datatype Event =
    | Attempt(client: Client, at: nat, admitted: bool)
    | Failure(client: Client, at: nat)
    | Success(client: Client, at: nat)

  function AfterEvent(m: Failures, e: Event): Failures {
    match e
    case Attempt(c, at, _) => AfterCheck(m, c, at)
    case Failure(c, at) => AfterFailure(m, c, at)
    case Success(c, _) => m - {c}
  }

  /** The `i`-th event acts on the table, and no refused attempt is admitted; a slot may still be missing. */
  predicate Stepped(es: seq<Event>, tables: seq<Failures>, i: nat)
    requires i < |es| && |tables| == |es| + 1
  {
    var e := es[i];
    tables[i + 1] == AfterEvent(tables[i], e) && (e.Attempt? && e.admitted ==> Refusal(tables[i], e.client, e.at).None?)
  }

  /** The tables between the events of a run of the throttle, whose clock never goes back. */
  ghost predicate IsRun(es: seq<Event>, tables: seq<Failures>) {
    var ordered := forall i, j :: 0 <= i < j < |es| ==> es[i].at <= es[j].at;
    |tables| == |es| + 1 && tables[0] == map[] && ordered && forall i :: 0 <= i < |es| ==> Stepped(es, tables, i)
  }

  /** Attempts of a client admitted and not yet recorded. */
  function Open(es: seq<Event>, c: Client, i: nat): int
    requires i <= |es|
  {
    if i == 0 then 0
    else
      var e := es[i - 1];
      Open(es, c, i - 1)
      + (if e.Attempt? && e.admitted && e.client == c then 1 else 0)
      - (if e.Failure? && e.client == c then 1 else 0)
  }

  function Now(es: seq<Event>, i: nat): nat
    requires i <= |es|
  {
    if i == 0 then 0 else es[i - 1].at
  }

  predicate FewOpen(es: seq<Event>, c: Client, n: nat, i: nat)
    requires i <= |es|
  {
    0 <= Open(es, c, i) <= n
  }

  /** The client never succeeds, records only open attempts, and has at most `n` open at once. */
  ghost predicate KeepsFailing(es: seq<Event>, c: Client, n: nat) {
    var failing := forall i :: 0 <= i < |es| && es[i].client == c ==> !es[i].Success?;
    var few := forall i :: 0 <= i <= |es| ==> FewOpen(es, c, n, i);
    failing && few
  }

  /** Failures of a client recorded in the half-open minute from `from`. */
  function Recorded(es: seq<Event>, c: Client, from: nat, i: nat): nat
    requires i <= |es|
  {
    if i == 0 then 0
    else
      var e := es[i - 1];
      Recorded(es, c, from, i - 1)
      + if e.Failure? && e.client == c && from <= e.at < from + 60_000_000_000 then 1 else 0
  }

  /** The latest failure window of a client: when it started and how many failures it holds. */
  datatype Window = Never | Window(start: nat, size: nat)

  function Latest(es: seq<Event>, c: Client, i: nat): Window
    requires i <= |es|
  {
    if i == 0 then Never
    else
      var w, e := Latest(es, c, i - 1), es[i - 1];
      if !(e.Failure? && e.client == c) then w
      else if w.Window? && e.at < w.start + LOGIN_FAILURE_WINDOW then w.(size := w.size + 1)
      else Window(e.at, 1)
  }

  /** The table entry of a client is its latest window, and is missing only if that is over. */
  ghost predicate Tracks(m: Failures, c: Client, w: Window, now: nat) {
    if c in m then
      w.Window? && w.start <= now && m[c] == FailedLogins(if w.size < U8_MAX then w.size else U8_MAX, w.start)
    else w.Window? ==> w.start + LOGIN_FAILURE_WINDOW <= now
  }

  /** While a window lasts, its failures and the open attempts stay within four more than the overlap. */
  ghost predicate Bounded(w: Window, open: int, n: nat, now: nat) {
    w.Window? ==>
      && 1 <= w.size <= 4 + n
      && (now < w.start + LOGIN_FAILURE_WINDOW ==> w.size + open <= 4 + n)
  }

  /** The failures of a minute lie in at most two windows, and the first of them misses its first failure. */
  ghost predicate Counted(w: Window, from: nat, recorded: nat, n: nat, now: nat) {
    && (now < from ==> recorded == 0)
    && match w
    case Never => recorded == 0
    case Window(start, size) =>
      if start < from then recorded < size
      else if start < from + LOGIN_FAILURE_WINDOW then recorded <= 3 + n + size
      else recorded <= 2 * n + 7
  }

  lemma TracksStep(es: seq<Event>, tables: seq<Failures>, c: Client, i: nat)
    requires IsRun(es, tables) && i < |es| && !(es[i].Success? && es[i].client == c)
    requires Tracks(tables[i], c, Latest(es, c, i), Now(es, i))
    ensures Tracks(tables[i + 1], c, Latest(es, c, i + 1), Now(es, i + 1))
  {
    assert Stepped(es, tables, i);
  }

  lemma BoundedStep(es: seq<Event>, tables: seq<Failures>, c: Client, n: nat, i: nat)
    requires IsRun(es, tables) && i < |es| && FewOpen(es, c, n, i) && FewOpen(es, c, n, i + 1)
    requires Tracks(tables[i], c, Latest(es, c, i), Now(es, i))
    requires Bounded(Latest(es, c, i), Open(es, c, i), n, Now(es, i))
    ensures Bounded(Latest(es, c, i + 1), Open(es, c, i + 1), n, Now(es, i + 1))
  {
    assert Stepped(es, tables, i);
    var e := es[i];
    if e.Attempt? && e.admitted && e.client == c {
      CheckIsInvisible(tables[i], c, e.at, c, e.at);
      assert Held(tables[i], c, e.at) < LOGIN_MAX_FAILURES;
    }
  }

  lemma CountedStep(es: seq<Event>, c: Client, n: nat, from: nat, i: nat)
    requires i < |es| && (i > 0 ==> es[i - 1].at <= es[i].at)
    requires Bounded(Latest(es, c, i), Open(es, c, i), n, Now(es, i))
    requires Bounded(Latest(es, c, i + 1), Open(es, c, i + 1), n, Now(es, i + 1))
    requires Latest(es, c, i).Window? ==> Latest(es, c, i).start <= Now(es, i)
    requires Counted(Latest(es, c, i), from, Recorded(es, c, from, i), n, Now(es, i))
    ensures Counted(Latest(es, c, i + 1), from, Recorded(es, c, from, i + 1), n, Now(es, i + 1))
  {
  }

  /** What holds of a client after the first `i` events. */
  ghost predicate Throttled(es: seq<Event>, tables: seq<Failures>, c: Client, n: nat, from: nat, i: nat)
    requires i <= |es| && i < |tables|
  {
    var w, now := Latest(es, c, i), Now(es, i);
    var tracked := Tracks(tables[i], c, w, now) && (w.Window? ==> w.start <= now);
    var bounded := Bounded(w, Open(es, c, i), n, now);
    var counted := Counted(w, from, Recorded(es, c, from, i), n, now);
    tracked && bounded && counted
  }

  lemma ThrottledStep(es: seq<Event>, tables: seq<Failures>, c: Client, n: nat, from: nat, i: nat)
    requires IsRun(es, tables) && KeepsFailing(es, c, n) && i < |es| && Throttled(es, tables, c, n, from, i)
    ensures Throttled(es, tables, c, n, from, i + 1)
  {
    assert FewOpen(es, c, n, i) && FewOpen(es, c, n, i + 1);
    TracksStep(es, tables, c, i);
    BoundedStep(es, tables, c, n, i);
    CountedStep(es, c, n, from, i);
  }

  lemma {:induction false} RunThrottled(es: seq<Event>, tables: seq<Failures>, c: Client, n: nat, from: nat, i: nat)
    requires IsRun(es, tables) && KeepsFailing(es, c, n) && i <= |es|
    ensures Throttled(es, tables, c, n, from, i)
  {
    if i == 0 {
    } else {
      RunThrottled(es, tables, c, n, from, i - 1);
      ThrottledStep(es, tables, c, n, from, i - 1);
    }
  }

  /**
   In a run where a client never succeeds and has at most `n` attempts open at once, every half-open minute
   holds at most 2n + 7 recorded failures: nine if each attempt is recorded before the next begins.
   */
  lemma FailuresPerMinute(es: seq<Event>, tables: seq<Failures>, c: Client, n: nat, from: nat)
    requires IsRun(es, tables) && KeepsFailing(es, c, n)
    ensures Recorded(es, c, from, |es|) <= 2 * n + 7
  {
    RunThrottled(es, tables, c, n, from, |es|);
  }

  // ----- the bound is reached -----

  function InMinute(at: nat): nat {
    if SECOND <= at < SECOND + 60_000_000_000 then 1 else 0
  }

  /** A run of one client that keeps failing: what is open, recorded in the minute and in the table at its end. */
  ghost predicate Reached(es: seq<Event>, tables: seq<Failures>, c: Client, n: nat,
                          open: int, recorded: nat, m: Failures, at: nat)
  {
    && IsRun(es, tables) && KeepsFailing(es, c, n) && tables[|es|] == m && Now(es, |es|) == at
    && Open(es, c, |es|) == open && Recorded(es, c, SECOND, |es|) == recorded
  }

  lemma {:induction false} SamePrefix(es: seq<Event>, e: Event, c: Client, i: nat)
    requires i <= |es|
    ensures Open(es + [e], c, i) == Open(es, c, i)
    ensures Recorded(es + [e], c, SECOND, i) == Recorded(es, c, SECOND, i)
  {
    if i == 0 {
    } else {
      SamePrefix(es, e, c, i - 1);
    }
  }

  lemma RunExtends(es: seq<Event>, tables: seq<Failures>, e: Event)
    requires IsRun(es, tables) && e.at >= Now(es, |es|)
    requires e.Attempt? ==> e.admitted && Refusal(tables[|es|], e.client, e.at).None?
    ensures IsRun(es + [e], tables + [AfterEvent(tables[|es|], e)])
  {
    var es', tables' := es + [e], tables + [AfterEvent(tables[|es|], e)];
    forall i | 0 <= i < |es'| ensures Stepped(es', tables', i) {
      if i < |es| { assert Stepped(es, tables, i); }
    }
  }

  lemma KeepsFailingExtends(es: seq<Event>, e: Event, c: Client, n: nat)
    requires KeepsFailing(es, c, n) && e.client == c && !e.Success?
    requires FewOpen(es + [e], c, n, |es| + 1)
    ensures KeepsFailing(es + [e], c, n)
  {
    var es' := es + [e];
    forall i | 0 <= i <= |es'| ensures FewOpen(es', c, n, i) {
      if i <= |es| {
        SamePrefix(es, e, c, i);
        assert FewOpen(es, c, n, i);
      }
    }
  }

  lemma AddAttempt(es: seq<Event>, tables: seq<Failures>, c: Client, n: nat,
                   open: int, recorded: nat, m: Failures, at: nat, now: nat)
    returns (es': seq<Event>, tables': seq<Failures>)
    requires Reached(es, tables, c, n, open, recorded, m, at) && 0 <= open < n && at <= now
    requires Refusal(m, c, now).None?
    ensures Reached(es', tables', c, n, open + 1, recorded, AfterCheck(m, c, now), now)
  {
    var e := Attempt(c, now, true);
    es', tables' := es + [e], tables + [AfterCheck(m, c, now)];
    RunExtends(es, tables, e);
    SamePrefix(es, e, c, |es|);
    KeepsFailingExtends(es, e, c, n);
  }

  lemma AddFailure(es: seq<Event>, tables: seq<Failures>, c: Client, n: nat,
                   open: int, recorded: nat, m: Failures, at: nat, now: nat)
    returns (es': seq<Event>, tables': seq<Failures>)
    requires Reached(es, tables, c, n, open, recorded, m, at) && 0 < open <= n && at <= now
    ensures Reached(es', tables', c, n, open - 1, recorded + InMinute(now), AfterFailure(m, c, now), now)
  {
    var e := Failure(c, now);
    es', tables' := es + [e], tables + [AfterFailure(m, c, now)];
    RunExtends(es, tables, e);
    SamePrefix(es, e, c, |es|);
    KeepsFailingExtends(es, e, c, n);
  }

  /** The table that holds this many failures, saturating, against the client alone. */
  function Only(c: Client, count: nat, start: nat): Failures {
    map[c := FailedLogins(if count < U8_MAX then count else U8_MAX, start)]
  }

  /** While its window lasts, a client with up to four failures passes the check and the table stays. */
  lemma CheckPasses(c: Client, count: nat, start: nat, now: nat)
    requires count < LOGIN_MAX_FAILURES && start <= now < start + LOGIN_FAILURE_WINDOW
    ensures AfterCheck(Only(c, count, start), c, now) == Only(c, count, start)
    ensures Refusal(Only(c, count, start), c, now).None?
  {
    assert |Only(c, count, start)| == 1;
  }

  /** Singles: each attempt recorded before the next begins. */
  lemma {:induction false} AddSingles(es: seq<Event>, tables: seq<Failures>, c: Client, n: nat,
                                      recorded: nat, count: nat, start: nat, at: nat, now: nat, k: nat)
    returns (es': seq<Event>, tables': seq<Failures>)
    requires Reached(es, tables, c, n, 0, recorded, Only(c, count, start), at) && n >= 1 && k >= 1
    requires at <= now && start <= now < start + LOGIN_FAILURE_WINDOW && count + k < LOGIN_MAX_FAILURES
    ensures Reached(es', tables', c, n, 0, recorded + k * InMinute(now), Only(c, count + k, start), now)
    decreases k
  {
    CheckPasses(c, count, start, now);
    es', tables' := AddAttempt(es, tables, c, n, 0, recorded, Only(c, count, start), at, now);
    es', tables' := AddFailure(es', tables', c, n, 1, recorded, Only(c, count, start), now, now);
    FailureCounts(c, count, start, now);
    if k == 1 {
    } else {
      es', tables' := AddSingles(es', tables', c, n, recorded + InMinute(now), count + 1, start, now, now, k - 1);
    }
  }

  lemma FailureCounts(c: Client, count: nat, start: nat, now: nat)
    requires start <= now < start + LOGIN_FAILURE_WINDOW
    ensures AfterFailure(Only(c, count, start), c, now) == Only(c, count + 1, start)
  {
  }

  /** Attempts that all begin before any of them is recorded. */
  lemma {:induction false} AddAttempts(es: seq<Event>, tables: seq<Failures>, c: Client, n: nat, open: int,
                                       recorded: nat, count: nat, start: nat, now: nat, k: nat)
    returns (es': seq<Event>, tables': seq<Failures>)
    requires Reached(es, tables, c, n, open, recorded, Only(c, count, start), now) && 0 <= open && open + k <= n
    requires count < LOGIN_MAX_FAILURES && start <= now < start + LOGIN_FAILURE_WINDOW
    ensures Reached(es', tables', c, n, open + k, recorded, Only(c, count, start), now)
    decreases k
  {
    es', tables' := es, tables;
    if k == 0 {
    } else {
      CheckPasses(c, count, start, now);
      es', tables' := AddAttempt(es, tables, c, n, open, recorded, Only(c, count, start), now, now);
      es', tables' := AddAttempts(es', tables', c, n, open + 1, recorded, count, start, now, k - 1);
    }
  }

  lemma {:induction false} AddFailures(es: seq<Event>, tables: seq<Failures>, c: Client, n: nat, open: nat,
                                       recorded: nat, count: nat, start: nat, now: nat)
    returns (es': seq<Event>, tables': seq<Failures>)
    requires Reached(es, tables, c, n, open, recorded, Only(c, count, start), now) && open <= n
    requires start <= now < start + LOGIN_FAILURE_WINDOW
    ensures Reached(es', tables', c, n, 0, recorded + open * InMinute(now), Only(c, count + open, start), now)
    decreases open
  {
    es', tables' := es, tables;
    if open == 0 {
    } else {
      es', tables' := AddFailure(es, tables, c, n, open, recorded, Only(c, count, start), now, now);
      FailureCounts(c, count, start, now);
      es', tables' := AddFailures(es', tables', c, n, open - 1, recorded + InMinute(now), count + 1, start, now);
    }
  }

  /** Nothing is held against the client, and nothing against anyone else. */
  predicate Forgotten(m: Failures, c: Client, now: nat) {
    m == map[] || (m.Keys == {c} && m[c].windowStarted + LOGIN_FAILURE_WINDOW <= now)
  }

  lemma FirstFailure(m: Failures, c: Client, now: nat)
    requires Forgotten(m, c, now)
    ensures AfterCheck(m, c, now) == map[] && Refusal(m, c, now).None?
    ensures AfterFailure(map[], c, now) == Only(c, 1, now)
  {
    assert |m| == |m.Keys|;
  }

  /** A window filled to the limit: four single failures, the first at its start, and `n` overlapping ones. */
  lemma FillWindow(es: seq<Event>, tables: seq<Failures>, c: Client, n: nat,
                   recorded: nat, m: Failures, at: nat, start: nat, now: nat)
    returns (es': seq<Event>, tables': seq<Failures>)
    requires Reached(es, tables, c, n, 0, recorded, m, at) && n >= 1 && Forgotten(m, c, start)
    requires at <= start <= now < start + LOGIN_FAILURE_WINDOW
    ensures Reached(es', tables', c, n, 0, recorded + InMinute(start) + 3 * InMinute(now) + n * InMinute(now),
                    Only(c, 4 + n, start), now)
  {
    FirstFailure(m, c, start);
    es', tables' := AddAttempt(es, tables, c, n, 0, recorded, m, at, start);
    es', tables' := AddFailure(es', tables', c, n, 1, recorded, map[], start, start);
    var first := recorded + InMinute(start);
    es', tables' := AddSingles(es', tables', c, n, first, 1, start, start, now, 3);
    var singles := first + 3 * InMinute(now);
    es', tables' := AddAttempts(es', tables', c, n, 0, singles, 4, start, now, n);
    es', tables' := AddFailures(es', tables', c, n, n, singles, 4, start, now);
  }

  /**
   The bound cannot be lowered for any overlap: a window begun at 0 s and filled at 59 s, and the next one
   begun and filled at 60 s, put 2n + 7 failures into the minute from 1 s.
   */
  lemma BoundIsReached(c: Client, n: nat)
    requires n >= 1
    ensures exists es, tables ::
              IsRun(es, tables) && KeepsFailing(es, c, n) && Recorded(es, c, SECOND, |es|) == 2 * n + 7
  {
    var es, tables := [], [map[]];
    assert FewOpen(es, c, n, 0);
    assert Reached(es, tables, c, n, 0, 0, map[], 0);
    es, tables := FillWindow(es, tables, c, n, 0, map[], 0, 0, 59 * SECOND);
    var m := Only(c, 4 + n, 0);
    assert Forgotten(m, c, 60 * SECOND);
    es, tables := FillWindow(es, tables, c, n, 3 + n, m, 59 * SECOND, 60 * SECOND, 60 * SECOND);
    assert IsRun(es, tables) && KeepsFailing(es, c, n) && Recorded(es, c, SECOND, |es|) == 2 * n + 7;
  }

  /** With one attempt at a time that is nine failures in a minute. */
  lemma NineInAMinute(c: Client)
    ensures exists es, tables ::
              IsRun(es, tables) && KeepsFailing(es, c, 1) && Recorded(es, c, SECOND, |es|) == 9
  {
    BoundIsReached(c, 1);
  }

  class LoginThrottle {
    var failures: Failures
    var freeSlots: nat

    constructor ()
      ensures failures == map[] && freeSlots == 2
    {
      failures, freeSlots := map[], LOGIN_MAX_CONCURRENT;
    }

    method RetryAfterAt(c: Client, now: nat) returns (wait: Option<nat>)
      modifies `failures
      ensures failures == AfterCheck(old(failures), c, now) && wait == Refusal(old(failures), c, now)
    {
      if |failures| >= LOGIN_MAX_TRACKED_CLIENTS {
        failures := map x | x in failures && Active(failures[x], now) :: failures[x];
      }
      if c in failures {
        var elapsed := Elapsed(failures[c], now);
        if elapsed >= LOGIN_FAILURE_WINDOW {
          failures := failures - {c};
        } else if failures[c].count >= LOGIN_MAX_FAILURES {
          var left := SaturatingSub(LOGIN_FAILURE_WINDOW, elapsed) / SECOND;
          return Some(if left < 1 then 1 else left);
        }
      }
      if c !in failures && |failures| >= LOGIN_MAX_TRACKED_CLIENTS {
        return Some(LOGIN_FAILURE_WINDOW / SECOND);
      }
      return None;
    }

    /** Refuses with a wait, or takes one of the password-check slots. */
    method Begin(c: Client, now: nat) returns (refused: Option<nat>)
      modifies this
      ensures failures == AfterCheck(old(failures), c, now)
      ensures refused == if Refusal(old(failures), c, now).Some? then Refusal(old(failures), c, now)
                         else if old(freeSlots) == 0 then Some(1) else None
      ensures freeSlots == if refused.None? then old(freeSlots) - 1 else old(freeSlots)
    {
      refused := RetryAfterAt(c, now);
      if refused.Some? {
        return;
      }
      if freeSlots == 0 {
        return Some(1);
      }
      freeSlots := freeSlots - 1;
    }

    /** The password check is over; its outcome is recorded after this, so more may be open than there are slots. */
    method Release()
      requires freeSlots < LOGIN_MAX_CONCURRENT
      modifies `freeSlots
      ensures freeSlots == old(freeSlots) + 1
    {
      freeSlots := freeSlots + 1;
    }

    method RecordFailureAt(c: Client, now: nat)
      modifies `failures
      ensures failures == AfterFailure(old(failures), c, now)
      ensures Held(failures, c, now) ==
              if Held(old(failures), c, now) < U8_MAX then Held(old(failures), c, now) + 1 else U8_MAX
      ensures forall other, later :: other != c ==> Held(failures, other, later) == Held(old(failures), other, later)
    {
      if c !in failures {
        failures := failures[c := FailedLogins(0, now)];
      }
      var attempt := failures[c];
      if Elapsed(attempt, now) >= LOGIN_FAILURE_WINDOW {
        attempt := FailedLogins(0, now);
      }
      attempt := attempt.(count := if attempt.count < U8_MAX then attempt.count + 1 else U8_MAX);
      failures := failures[c := attempt];
    }

    method RecordSuccess(c: Client)
      modifies `failures
      ensures failures == old(failures) - {c} && forall now :: Held(failures, c, now) == 0
    {
      failures := failures - {c};
    }
  }
}
