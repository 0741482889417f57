/** How much the admission rule lets through and how much it stores: 30 admissions
    in any minute and 90 live guard entries per app. */
module AdmissionBounds {
  import opened Admission

  ghost predicate Sorted(ts: seq<Time>) {
    forall i, j :: 0 <= i < j < |ts| ==> ts[i] <= ts[j]
  }

  /** The 31st admission after any one comes at least a minute later. */
  ghost predicate Spaced(ts: seq<Time>) {
    forall i :: 0 <= i && i + RATE_PER_MIN < |ts| ==> ts[i + RATE_PER_MIN] - ts[i] >= MINUTE
  }

  // ----- spacing is kept by every run

  lemma {:induction false} RecentSuffix(ts: seq<Time>, k: nat, now: Time)
    requires k <= |ts| && forall i :: k <= i < |ts| ==> now - ts[i] < MINUTE
    ensures |Recent(ts, now)| >= |ts| - k
  {
    if k < |ts| {
      RecentSuffix(ts[..|ts| - 1], k, now);
    }
  }

  lemma SpacedNext(ts: seq<Time>, now: Time)
    requires Sorted(ts) && Spaced(ts) && forall i :: 0 <= i < |ts| ==> ts[i] <= now
    requires |Recent(ts, now)| < RATE_PER_MIN
    ensures Sorted(ts + [now]) && Spaced(ts + [now])
  {
    hide Recent;
    var k := |ts| - RATE_PER_MIN;
    if k >= 0 && now - ts[k] < MINUTE {
      RecentSuffix(ts, k, now);
    }
  }

  lemma {:induction false} RunSpaced(requests: seq<Request>, app: AppId, now: Time)
    requires Proper(requests) && forall i :: 0 <= i < |requests| ==> requests[i].now <= now
    ensures var ts := TimesOf(Run(requests).1, app);
      Sorted(ts) && Spaced(ts) && forall i :: 0 <= i < |ts| ==> ts[i] <= now
    decreases |requests|
  {
    hide Admit, Recent, TimesOf;
    TimesOfNone(app);
    if requests != [] {
      var n := |requests| - 1;
      var r := requests[n];
      ProperPrefix(requests);
      PrunedRefinesHistory(requests);
      RunSpaced(requests[..n], app, r.now);
      var history := Run(requests[..n]).1;
      TimesOfNext(history, r, app);
      assert TimesOf(history, app) + [] == TimesOf(history, app);
      if Reference(history, r) == Admitted && r.app == app {
        SpacedNext(TimesOf(history, app), r.now);
      }
    }
  }

  lemma TimesOfNone(app: AppId)
    ensures TimesOf([], app) == []
  {
  }

  // ----- counting in windows

  /** Positions of the admissions of one app with lo <= time < hi. */
  ghost function Window(ts: seq<Time>, lo: Time, hi: Time): set<int> {
    set i | 0 <= i < |ts| && lo <= ts[i] < hi
  }

  lemma Member<T>(s: set<T>) returns (x: T)
    requires |s| != 0
    ensures x in s
  {
    x :| x in s;
  }

  lemma {:induction false} RangeSize(lo: int, s: set<int>, n: nat)
    requires forall i :: i in s ==> lo <= i < lo + n
    ensures |s| <= n
    decreases n
  {
    if n == 0 {
      if |s| != 0 {
        var _ := Member(s);
      }
    } else {
      RangeSize(lo, s - {lo + n - 1}, n - 1);
    }
  }

  /** A set of numbers closer than `n` to each other has at most `n` members. */
  lemma CloseSetSize(s: set<int>, n: nat)
    requires forall i, j :: i in s && j in s ==> j - i < n
    ensures |s| <= n
  {
    if |s| != 0 {
      var lo := Least(s);
      RangeSize(lo, s, n);
    }
  }

  lemma {:induction false} Least(s: set<int>) returns (lo: int)
    requires |s| != 0
    ensures lo in s && forall i :: i in s ==> lo <= i
    decreases s
  {
    var first := Member(s);
    var rest := s - {first};
    lo := first;
    if |rest| != 0 {
      var other := Least(rest);
      lo := if other < first then other else first;
    }
    forall i | i in s
      ensures lo <= i
    {
      if i != first {
        assert i in rest;
      }
    }
  }

  lemma {:induction false} FarApart(ts: seq<Time>, i: nat, j: nat, n: nat)
    requires Sorted(ts) && Spaced(ts) && i + n * RATE_PER_MIN <= j < |ts|
    ensures ts[j] - ts[i] >= n * MINUTE
    decreases n
  {
    if n > 0 {
      FarApart(ts, i + RATE_PER_MIN, j, n - 1);
    }
  }

  lemma WindowBound(ts: seq<Time>, from: Time, n: nat)
    requires Sorted(ts) && Spaced(ts)
    ensures |Window(ts, from, from + n * MINUTE)| <= n * RATE_PER_MIN
  {
    var w := Window(ts, from, from + n * MINUTE);
    forall i, j | i in w && j in w
      ensures j - i < n * RATE_PER_MIN
    {
      if j - i >= n * RATE_PER_MIN {
        FarApart(ts, i, j, n);
      }
    }
    CloseSetSize(w, n * RATE_PER_MIN);
  }

  /** In every run, every half-open minute holds at most 30 admissions of an app. */
  lemma RateBound(requests: seq<Request>, app: AppId, from: Time)
    requires Proper(requests)
    ensures |Window(TimesOf(Run(requests).1, app), from, from + 60_000_000_000)| <= 30
  {
    RunSpaced(requests, app, if requests == [] then 0 else requests[|requests| - 1].now);
    WindowBound(TimesOf(Run(requests).1, app), from, 1);
  }

  lemma {:induction false} RecentIsWindow(ts: seq<Time>, now: Time)
    requires forall i :: 0 <= i < |ts| ==> ts[i] <= now
    ensures |Recent(ts, now)| == |Window(ts, now - MINUTE + 1, now + 1)|
  {
    if ts == [] {
      assert Window(ts, now - MINUTE + 1, now + 1) == {};
    } else {
      var n := |ts| - 1;
      RecentIsWindow(ts[..n], now);
      var before, w := Window(ts[..n], now - MINUTE + 1, now + 1), Window(ts, now - MINUTE + 1, now + 1);
      assert w == before + if now - ts[n] < MINUTE then {n} else {};
    }
  }

  /** A request whose digest was never admitted is refused exactly when 30 requests
      of its app were admitted in the minute up to it. */
  lemma RefusedIffFull(requests: seq<Request>)
    requires Proper(requests) && requests != []
    ensures var r := requests[|requests| - 1];
      var (st, history) := Run(requests[..|requests| - 1]);
      !Remembers(history, r.key) ==>
        (Admit(st, r.app, r.key, r.now).0 != Admitted <==>
          |Window(TimesOf(history, r.app), r.now - 60_000_000_000 + 1, r.now + 1)| == 30)
  {
    hide Admit, Run, Recent, TimesOf, Window, Sorted, Spaced;
    var n := |requests| - 1;
    var r := requests[n];
    ProperPrefix(requests);
    PrunedRefinesHistory(requests);
    RunSpaced(requests[..n], r.app, r.now);
    var ts := TimesOf(Run(requests[..n]).1, r.app);
    RecentIsWindow(ts, r.now);
    WindowBound(ts, r.now - MINUTE + 1, 1);
  }

  // ----- the size of the replay guard

  /** Digests of one app's admissions from `lo` on. */
  ghost function KeysOf(history: seq<Request>, app: AppId, lo: Time): set<Digest> {
    set e | e in history && e.app == app && lo <= e.now :: e.key
  }

  lemma WindowNext(ts: seq<Time>, t: Time, lo: Time, hi: Time)
    requires t < hi
    ensures |Window(ts + [t], lo, hi)| == |Window(ts, lo, hi)| + if lo <= t then 1 else 0
  {
    assert Window(ts + [t], lo, hi) == Window(ts, lo, hi) + if lo <= t then {|ts|} else {};
  }

  lemma KeysNext(history: seq<Request>, e: Request, app: AppId, lo: Time)
    ensures KeysOf(history + [e], app, lo) ==
      KeysOf(history, app, lo) + if e.app == app && lo <= e.now then {e.key} else {}
  {
  }

  lemma {:induction false} KeysInWindow(history: seq<Request>, app: AppId, lo: Time, hi: Time)
    requires forall e :: e in history ==> e.now < hi
    ensures |KeysOf(history, app, lo)| <= |Window(TimesOf(history, app), lo, hi)|
  {
    hide TimesOf, Window;
    if history == [] {
      assert KeysOf(history, app, lo) == {};
    } else {
      hide KeysOf;
      var n := |history| - 1;
      var before, e := history[..n], history[n];
      KeysInWindow(before, app, lo, hi);
      assert history == before + [e];
      TimesOfNext(before, e, app);
      KeysNext(before, e, app, lo);
      WindowNext(TimesOf(before, app), e.now, lo, hi);
      assert TimesOf(before, app) + [] == TimesOf(before, app);
    }
  }

  /** The entries of one app that the guard holds. */
  ghost function GuardOf(st: State, history: seq<Request>, app: AppId): set<Digest> {
    set e | e in history && e.app == app && e.key in st.seen :: e.key
  }

  /** After any request of any run the guard holds at most 90 entries per app. */
  lemma GuardBound(requests: seq<Request>, app: AppId)
    requires Proper(requests)
    ensures |GuardOf(Run(requests).0, Run(requests).1, app)| <= 90
  {
    hide Run, TimesOf, Tracks, Sorted, Spaced, Window, Proper;
    var (st, history) := Run(requests);
    if requests == [] {
      RunOfNone();
      assert GuardOf(st, history, app) == {};
    } else {
      var now := LastTime(requests);
      RunTracks(requests, now);
      RunSpaced(requests, app, now);
      GuardIsRecent(requests);
      GuardWithin(st, history, app, now);
      WindowBound(TimesOf(history, app), now - 2 * CLOCK_SKEW, 3);
    }
  }

  lemma LastTime(requests: seq<Request>) returns (now: Time)
    requires Proper(requests) && requests != []
    ensures now == requests[|requests| - 1].now
    ensures forall i :: 0 <= i < |requests| ==> requests[i].now <= now
  {
    now := requests[|requests| - 1].now;
  }

  lemma GuardIsRecent(requests: seq<Request>)
    requires requests != []
    ensures forall k :: k in Run(requests).0.seen ==> requests[|requests| - 1].now <= Run(requests).0.seen[k]
  {
  }

  lemma GuardWithin(st: State, history: seq<Request>, app: AppId, now: Time)
    requires Tracks(st, history, now)
    requires forall k :: k in st.seen ==> now <= st.seen[k]
    ensures |GuardOf(st, history, app)| <= |Window(TimesOf(history, app), now - 2 * CLOCK_SKEW,
      now - 2 * CLOCK_SKEW + 3 * MINUTE)|
  {
    hide TimesOf, Window;
    var lo := now - 2 * CLOCK_SKEW;
    forall e | e in history && e.key in st.seen
      ensures lo <= e.now
    {
      var e' :| e' in history && e'.key == e.key && st.seen[e.key] == e'.now + 2 * CLOCK_SKEW;
      var i :| 0 <= i < |history| && history[i] == e;
      var j :| 0 <= j < |history| && history[j] == e';
      assert i == j;
    }
    assert GuardOf(st, history, app) <= KeysOf(history, app, lo);
    SubsetSize(GuardOf(st, history, app), KeysOf(history, app, lo));
    KeysInWindow(history, app, lo, lo + 3 * MINUTE);
  }

  lemma SubsetSize<T>(s: set<T>, t: set<T>)
    requires s <= t
    ensures |s| <= |t|
  {
    assert t == s + (t - s);
  }

  // ----- the rate limit in any order of clock values

  /** The i-th request got past the replay guard, so that the times of its app were
      filtered by its clock value. */
  ghost predicate Passes(requests: seq<Request>, i: nat)
    requires i < |requests|
  {
    var r := requests[i];
    Admit(Run(requests[..i]).0, r.app, r.key, r.now).0 != Replayed
  }

  /** The i-th request was admitted for this app, and no request of the app that passed the
      guard since, the last included, came with a clock value a minute or more after it. */
  ghost predicate Counts(requests: seq<Request>, i: nat, app: AppId)
    requires i < |requests|
  {
    && AdmittedAt(requests, i) && requests[i].app == app
    && forall k :: i < k < |requests| && requests[k].app == app && Passes(requests, k) ==>
         requests[k].now - requests[i].now < MINUTE
  }

  /** Those of the first m. */
  ghost function Counted(requests: seq<Request>, app: AppId, m: nat): set<int>
    requires m <= |requests|
  {
    set i: int | 0 <= i < m && Counts(requests, i, app)
  }

  ghost function CountedTimes(requests: seq<Request>, app: AppId, m: nat): seq<Time>
    requires m <= |requests|
  {
    if m == 0 then []
    else CountedTimes(requests, app, m - 1) + if Counts(requests, m - 1, app) then [requests[m - 1].now] else []
  }

  lemma {:induction false} CountedSize(requests: seq<Request>, app: AppId, m: nat)
    requires m <= |requests|
    ensures |CountedTimes(requests, app, m)| == |Counted(requests, app, m)|
  {
    hide Counts;
    if m == 0 {
      assert Counted(requests, app, m) == {};
    } else {
      CountedSize(requests, app, m - 1);
      var before := Counted(requests, app, m - 1);
      assert Counted(requests, app, m) == before + if Counts(requests, m - 1, app) then {m - 1} else {};
    }
  }

  lemma CountsNext(requests: seq<Request>, i: nat, app: AppId)
    requires i < |requests|
    ensures var n := |requests| - 1;
      Counts(requests, i, app) <==>
        if i == n then AdmittedAt(requests, n) && requests[n].app == app
        else
          && Counts(requests[..n], i, app)
          && (requests[n].app == app && Passes(requests, n) ==> requests[n].now - requests[i].now < MINUTE)
  {
    hide Run, Admit;
    var n := |requests| - 1;
    if i < n {
      assert forall k :: 0 <= k < n ==> requests[..n][k] == requests[k] && requests[..n][..k] == requests[..k];
      assert forall k :: 0 <= k < n ==> (Passes(requests[..n], k) <==> Passes(requests, k));
    }
  }

  /** The last request filters the times counted before it, if it gets so far. */
  lemma {:induction false} CountedFiltered(requests: seq<Request>, app: AppId, m: nat)
    requires requests != [] && m <= |requests| - 1
    ensures var n := |requests| - 1;
      var before := CountedTimes(requests[..n], app, m);
      CountedTimes(requests, app, m) ==
        if requests[n].app == app && Passes(requests, n) then Recent(before, requests[n].now) else before
    decreases m
  {
    hide Counts, Passes, Recent, CountedTimes;
    var n := |requests| - 1;
    if m == 0 {
      CountedNone(requests, app);
      CountedNone(requests[..n], app);
      RecentNone(requests[n].now);
    } else {
      CountedFiltered(requests, app, m - 1);
      CountsNext(requests, m - 1, app);
      CountedMore(requests, app, m);
      CountedMore(requests[..n], app, m);
      var t := requests[m - 1].now;
      assert requests[..n][m - 1].now == t;
      RecentNext(CountedTimes(requests[..n], app, m - 1), t, requests[n].now);
    }
  }

  lemma CountedNone(requests: seq<Request>, app: AppId)
    ensures CountedTimes(requests, app, 0) == []
  {
  }

  lemma CountedMore(requests: seq<Request>, app: AppId, m: nat)
    requires 0 < m <= |requests|
    ensures CountedTimes(requests, app, m) ==
      CountedTimes(requests, app, m - 1) + if Counts(requests, m - 1, app) then [requests[m - 1].now] else []
  {
    hide Counts;
  }

  lemma RecentNone(now: Time)
    ensures Recent([], now) == []
  {
  }

  lemma RecentNext(ts: seq<Time>, t: Time, now: Time)
    ensures Recent(ts + [t], now) == Recent(ts, now) + if now - t < MINUTE then [t] else []
    ensures Recent(ts + [], now) == Recent(ts, now)
  {
    assert (ts + [t])[..|ts|] == ts && ts + [] == ts;
  }

  /** The stored times are exactly those that count. */
  lemma {:induction false} RateExact(requests: seq<Request>, app: AppId)
    ensures TimesFor(Run(requests).0.rate, app) == CountedTimes(requests, app, |requests|)
    decreases |requests|
  {
    hide Run, Counts, Recent, Live;
    if requests == [] {
      RunOfNone();
    } else {
      var n := |requests| - 1;
      RateExact(requests[..n], app);
      RunLast(requests);
      CountedFiltered(requests, app, n);
      CountsNext(requests, n, app);
      RateStep(Run(requests[..n]).0, requests[n], app);
    }
  }

  /** What one admission does to the times of an app. */
  lemma RateStep(st: State, r: Request, app: AppId)
    ensures var (verdict, st') := Admit(st, r.app, r.key, r.now);
      TimesFor(st'.rate, app) ==
        if r.app != app || verdict == Replayed then TimesFor(st.rate, app)
        else Recent(TimesFor(st.rate, app), r.now) + if verdict == Admitted then [r.now] else []
  {
    hide Recent, Live;
    var recent := Recent(TimesFor(st.rate, r.app), r.now);
    assert recent + [] == recent;
  }

  /** In any run, in any order of clock values: a request that is no replay is refused for
      the rate exactly when 30 admissions of its app still count. */
  lemma LimitedIff(requests: seq<Request>)
    requires requests != [] && Passes(requests, |requests| - 1)
    ensures var n := |requests| - 1;
      AdmittedAt(requests, n) <==> |Counted(requests, requests[n].app, n)| < 30
  {
    hide Run, Counts, Counted, CountedTimes, Recent, Live;
    var n := |requests| - 1;
    var app := requests[n].app;
    RateExact(requests[..n], app);
    CountedFiltered(requests, app, n);
    CountedSize(requests, app, n);
  }

  // ----- the rate bound needs the order

  ghost function Interval(n: nat): (s: set<int>)
    ensures |s| == n && forall i :: i in s <==> 0 <= i < n
  {
    if n == 0 then {} else Interval(n - 1) + {n - 1}
  }

  /** Thirty requests at one instant, one 61 seconds later, and one that was sampled half a
      minute after the thirty but took the lock last. */
  function Burst(m: nat): (requests: seq<Request>)
    ensures |requests| == m
  {
    seq(m, i requires 0 <= i < m =>
      var t := if i < RATE_PER_MIN then 0 else if i == RATE_PER_MIN then 61 else 30;
      Request(AppId("app"), Digest(seq(i, _ => 'a')), t, t * SECOND))
  }

  lemma BurstPrefix(m: nat, k: nat)
    requires k <= m
    ensures Burst(m)[..k] == Burst(k)
    ensures 0 < k ==> (AdmittedAt(Burst(m), k - 1) <==> AdmittedAt(Burst(k), k - 1))
  {
    hide Run, Admit;
    assert Burst(m)[..k] == Burst(k);
    if 0 < k {
      assert Burst(m)[..k - 1] == Burst(k)[..k - 1];
    }
  }

  /** No digest repeats, so the guard lets every one pass. */
  lemma BurstPasses(m: nat)
    requires 0 < m
    ensures Passes(Burst(m), m - 1)
  {
    hide Run, Admit, Guards;
    var requests, n := Burst(m), m - 1;
    ReplayedIff(requests);
    forall i | 0 <= i < n
      ensures !Guards(requests, i, requests[n].key)
    {
      assert |requests[i].key.hex| == i && |requests[n].key.hex| == n;
      GuardsHasKey(requests, i, requests[n].key);
    }
  }

  lemma GuardsHasKey(requests: seq<Request>, i: nat, key: Digest)
    requires i < |requests|
    ensures Guards(requests, i, key) ==> requests[i].key == key
  {
    hide AdmittedAt;
  }

  /** None of the thirty counts once the late one has come. */
  lemma OnlyLateCounts(m: nat, i: nat)
    requires RATE_PER_MIN + 1 <= m <= RATE_PER_MIN + 2 && i < m
    requires Passes(Burst(m), RATE_PER_MIN)
    requires Counts(Burst(m), i, AppId("app"))
    ensures i >= RATE_PER_MIN
  {
    hide AdmittedAt, Passes;
    assert Burst(m)[RATE_PER_MIN].now == 61 * SECOND && Burst(m)[RATE_PER_MIN].app == AppId("app");
  }

  /** All of them are admitted. */
  lemma {:induction false} BurstAdmitted(m: nat)
    requires 0 < m <= RATE_PER_MIN + 2
    ensures AdmittedAt(Burst(m), m - 1)
    decreases m
  {
    hide Run, Admit, AdmittedAt, Counts, Passes;
    var requests, n, app := Burst(m), m - 1, AppId("app");
    BurstPasses(m);
    if n > RATE_PER_MIN {
      BurstAdmitted(m - 1);
      BurstPrefix(m, m - 1);
      AdmittedPasses(requests, RATE_PER_MIN);
    }
    var counted := Counted(requests, app, n);
    if n >= RATE_PER_MIN {
      forall i | i in counted
        ensures RATE_PER_MIN <= i < RATE_PER_MIN + 1
      {
        OnlyLateCounts(m, i);
      }
      RangeSize(RATE_PER_MIN, counted, 1);
    } else {
      RangeSize(0, counted, n);
    }
    LimitedIff(requests);
  }

  lemma AdmittedPasses(requests: seq<Request>, i: nat)
    requires i < |requests| && AdmittedAt(requests, i)
    ensures Passes(requests, i)
  {
  }

  lemma {:induction false} BurstHistory(m: nat)
    requires m <= RATE_PER_MIN + 2
    ensures Run(Burst(m)).1 == Burst(m)
    decreases m
  {
    hide Run, Admit;
    if m == 0 {
      RunOfNone();
    } else {
      BurstHistory(m - 1);
      BurstAdmitted(m);
      BurstPrefix(m, m - 1);
      RunNext(Burst(m - 1), Burst(m)[m - 1]);
      assert Burst(m - 1) + [Burst(m)[m - 1]] == Burst(m);
    }
  }

  /** All of the times but the one at 61 seconds lie in the first minute. */
  lemma BurstWindow(ts: seq<Time>, m: nat)
    requires m == RATE_PER_MIN + 2 && |ts| == m && forall i :: 0 <= i < m ==> ts[i] == Burst(m)[i].now
    ensures |Window(ts, 0, MINUTE)| == RATE_PER_MIN + 1
  {
    assert Window(ts, 0, MINUTE) == Interval(m) - {RATE_PER_MIN};
  }

  lemma {:induction false} BurstTimes(m: nat)
    ensures var ts := TimesOf(Burst(m), AppId("app"));
      |ts| == m && forall i :: 0 <= i < m ==> ts[i] == Burst(m)[i].now
    decreases m
  {
    hide TimesOf;
    if m == 0 {
      TimesOfNone(AppId("app"));
      assert Burst(0) == [];
    } else {
      BurstTimes(m - 1);
      assert Burst(m - 1) + [Burst(m)[m - 1]] == Burst(m);
      TimesOfNext(Burst(m - 1), Burst(m)[m - 1], AppId("app"));
    }
  }

  /** Without the order of the clock values a minute can hold more than thirty admissions:
      32 in-skew requests with different digests are all admitted, 31 of them within the
      minute from the first. */
  lemma BurstPassesBound()
    ensures var requests := Burst(32);
      && (forall i :: 0 <= i < |requests| ==> InSkew(requests[i]))
      && (forall i, j :: 0 <= i < j < |requests| ==> requests[i].key != requests[j].key)
      && Run(requests).1 == requests
      && |Window(TimesOf(requests, AppId("app")), 0, 60_000_000_000)| == 31
  {
    hide Run, TimesOf;
    var m := RATE_PER_MIN + 2;
    var requests, ts := Burst(m), TimesOf(Burst(m), AppId("app"));
    BurstHistory(m);
    BurstTimes(m);
    forall i, j | 0 <= i < j < m
      ensures requests[i].key != requests[j].key
    {
      assert |requests[i].key.hex| == i && |requests[j].key.hex| == j;
    }
    BurstWindow(ts, m);
  }
}
