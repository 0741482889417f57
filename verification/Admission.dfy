/** The key server's admission rule: a replay guard that forgets and a rate window
    that is filtered, against a reference that remembers every admission. Times are
    nanoseconds on one clock. */
module Admission {
  type Time = int

  /** An app's name in the allowlist. */
  datatype AppId = AppId(name: string)

  /** The hexadecimal hash under which a signature is remembered. */
  datatype Digest = Digest(hex: string)

  const SECOND: Time := 1_000_000_000
  const MINUTE: Time := 60 * SECOND
  const CLOCK_SKEW: Time := 60 * SECOND
  const RATE_PER_MIN := 30

  datatype Verdict = Admitted | Replayed | RateLimited

  /** Replay guard (digest of a signature to its expiry) and recent times per app. */
  datatype State = State(seen: map<Digest, Time>, rate: map<AppId, seq<Time>>)

  const EMPTY := State(map[], map[])

  /** The guard entries still alive: `now` is not after their expiry. */
  function Live(seen: map<Digest, Time>, now: Time): map<Digest, Time> {
    map k | k in seen && now <= seen[k] :: seen[k]
  }

  function Recent(ts: seq<Time>, now: Time): seq<Time> {
    if ts == [] then []
    else
      var last := |ts| - 1;
      Recent(ts[..last], now) + if now - ts[last] < MINUTE then [ts[last]] else []
  }

  function TimesFor(rate: map<AppId, seq<Time>>, app: AppId): seq<Time> {
    if app in rate then rate[app] else []
  }

  /** admit on values. */
  function Admit(st: State, app: AppId, key: Digest, now: Time): (Verdict, State) {
    var seen := Live(st.seen, now);
    if key in seen then (Replayed, st.(seen := seen))
    else
      var recent := Recent(TimesFor(st.rate, app), now);
      if |recent| >= RATE_PER_MIN then (RateLimited, State(seen, st.rate[app := recent]))
      else (Admitted, State(seen[key := now + 2 * CLOCK_SKEW], st.rate[app := recent + [now]]))
  }

  // ----- the reference

  /** A request that reached admission: its app, signature digest, signed time stamp
      (in seconds) and the time at which the server saw it. */
  datatype Request = Request(app: AppId, key: Digest, ts: int, now: Time)

  ghost predicate InSkew(r: Request) {
    -CLOCK_SKEW <= r.now - r.ts * SECOND <= CLOCK_SKEW
  }

  /** Arrival times of the admitted requests of one app, oldest first. */
  function TimesOf(history: seq<Request>, app: AppId): seq<Time> {
    if history == [] then []
    else
      var last := |history| - 1;
      TimesOf(history[..last], app) + if history[last].app == app then [history[last].now] else []
  }

  ghost predicate Remembers(history: seq<Request>, key: Digest) {
    exists e :: e in history && e.key == key
  }

  /** The verdict of a server that forgets nothing. */
  ghost function Reference(history: seq<Request>, r: Request): Verdict {
    if Remembers(history, r.key) then Replayed
    else if |Recent(TimesOf(history, r.app), r.now)| >= RATE_PER_MIN then RateLimited
    else Admitted
  }

  // ----- runs

  /** State and admissions after a run of requests in the order they take the lock. */
  ghost function Run(requests: seq<Request>): (State, seq<Request>) {
    if requests == [] then (EMPTY, [])
    else
      var r := requests[|requests| - 1];
      var (st, history) := Run(requests[..|requests| - 1]);
      var (verdict, st') := Admit(st, r.app, r.key, r.now);
      (st', if verdict == Admitted then history + [r] else history)
  }

  /** Requests within the skew, on a clock that does not go back, and a digest that
      fixes the signed time stamp. */
  ghost predicate Proper(requests: seq<Request>) {
    && (forall i :: 0 <= i < |requests| ==> InSkew(requests[i]))
    && (forall i, j :: 0 <= i < j < |requests| ==> requests[i].now <= requests[j].now)
    && (forall i, j :: 0 <= i < j < |requests| && requests[i].key == requests[j].key ==>
      requests[i].ts == requests[j].ts)
  }

  // ----- filtering

  lemma {:induction false} RecentConcat(a: seq<Time>, b: seq<Time>, now: Time)
    ensures Recent(a + b, now) == Recent(a, now) + Recent(b, now)
  {
    if b == [] {
      assert a + b == a;
      assert Recent(a, now) + [] == Recent(a, now);
    } else {
      var last := |b| - 1;
      assert (a + b)[..|a + b| - 1] == a + b[..last];
      RecentConcat(a, b[..last], now);
    }
  }

  /** Filtering earlier loses nothing a later filter would keep. */
  lemma {:induction false} RecentTwice(ts: seq<Time>, now: Time, later: Time)
    requires now <= later
    ensures Recent(Recent(ts, now), later) == Recent(ts, later)
  {
    if ts != [] {
      var last := |ts| - 1;
      RecentTwice(ts[..last], now, later);
      var tail := if now - ts[last] < MINUTE then [ts[last]] else [];
      RecentConcat(Recent(ts[..last], now), tail, later);
      assert tail != [] ==> tail[..0] == [];
    }
  }

  // ----- the invariant that ties the pruned state to the full history

  ghost predicate Ordered(history: seq<Request>, now: Time) {
    && (forall i, j :: 0 <= i < j < |history| ==> history[i].key != history[j].key && history[i].now <= history[j].now)
    && (forall e :: e in history ==> e.now <= now)
  }

  /** The guard holds exactly admissions, and all those of the last two minutes. */
  ghost predicate GuardTracks(seen: map<Digest, Time>, history: seq<Request>, now: Time) {
    && (forall e :: e in history && now <= e.now + 2 * CLOCK_SKEW ==>
          e.key in seen && seen[e.key] == e.now + 2 * CLOCK_SKEW)
    && (forall k :: k in seen ==> exists e :: e in history && e.key == k && seen[k] == e.now + 2 * CLOCK_SKEW)
  }

  /** From now on the stored times filter to what the full history filters to. */
  ghost predicate RateTracks(rate: map<AppId, seq<Time>>, history: seq<Request>, now: Time) {
    forall app, t :: now <= t ==> Recent(TimesFor(rate, app), t) == Recent(TimesOf(history, app), t)
  }

  ghost predicate Tracks(st: State, history: seq<Request>, now: Time) {
    Ordered(history, now) && GuardTracks(st.seen, history, now) && RateTracks(st.rate, history, now)
  }

  lemma TracksLater(st: State, history: seq<Request>, now: Time, later: Time)
    requires Tracks(st, history, now) && now <= later
    ensures Tracks(st, history, later)
  {
  }

  lemma TimesOfNext(history: seq<Request>, r: Request, app: AppId)
    ensures TimesOf(history + [r], app) == TimesOf(history, app) + if r.app == app then [r.now] else []
  {
    assert (history + [r])[..|history|] == history;
  }

  /** The guard answers as the full history does when every admission under the same
      key is at most two skews old. */
  lemma GuardAgrees(seen: map<Digest, Time>, history: seq<Request>, r: Request)
    requires GuardTracks(seen, history, r.now)
    requires forall e :: e in history && e.key == r.key ==> r.now <= e.now + 2 * CLOCK_SKEW
    ensures r.key in Live(seen, r.now) <==> Remembers(history, r.key)
    ensures GuardTracks(Live(seen, r.now), history, r.now)
  {
  }

  lemma GuardAdds(seen: map<Digest, Time>, history: seq<Request>, r: Request)
    requires GuardTracks(seen, history, r.now) && !Remembers(history, r.key)
    ensures GuardTracks(seen[r.key := r.now + 2 * CLOCK_SKEW], history + [r], r.now)
  {
    var seen' := seen[r.key := r.now + 2 * CLOCK_SKEW];
    assert r in history + [r];
    forall k | k in seen'
      ensures exists e :: e in history + [r] && e.key == k && seen'[k] == e.now + 2 * CLOCK_SKEW
    {
      if k != r.key {
        var e :| e in history && e.key == k && seen[k] == e.now + 2 * CLOCK_SKEW;
        assert e in history + [r];
      }
    }
  }

  /** Storing the filtered times, with or without the new one, keeps the tie. */
  lemma RateKept(rate: map<AppId, seq<Time>>, history: seq<Request>, r: Request)
    requires RateTracks(rate, history, r.now)
    ensures var recent := Recent(TimesFor(rate, r.app), r.now);
      && recent == Recent(TimesOf(history, r.app), r.now)
      && RateTracks(rate[r.app := recent], history, r.now)
      && RateTracks(rate[r.app := recent + [r.now]], history + [r], r.now)
  {
    hide Recent, TimesOf;
    var recent := Recent(TimesFor(rate, r.app), r.now);
    forall app, t | r.now <= t
      ensures Recent(TimesFor(rate[r.app := recent], app), t) == Recent(TimesOf(history, app), t)
      ensures Recent(TimesFor(rate[r.app := recent + [r.now]], app), t) == Recent(TimesOf(history + [r], app), t)
    {
      TimesOfNext(history, r, app);
      RecentTwice(TimesFor(rate, r.app), r.now, t);
      RecentConcat(recent, [r.now], t);
      RecentConcat(TimesOf(history, app), [r.now], t);
      assert TimesOf(history, app) + [] == TimesOf(history, app);
    }
  }

  /** One admission: same verdict as the reference, and the tie is kept. */
  lemma AdmitTracks(st: State, history: seq<Request>, r: Request)
    requires Tracks(st, history, r.now)
    requires forall e :: e in history && e.key == r.key ==> r.now <= e.now + 2 * CLOCK_SKEW
    ensures var (verdict, st') := Admit(st, r.app, r.key, r.now);
      && verdict == Reference(history, r)
      && Tracks(st', if verdict == Admitted then history + [r] else history, r.now)
  {
    hide Recent, TimesOf, TimesFor, Live, GuardTracks, RateTracks;
    GuardAgrees(st.seen, history, r);
    RateKept(st.rate, history, r);
    if !Remembers(history, r.key) {
      GuardAdds(Live(st.seen, r.now), history, r);
    }
  }

  lemma {:induction false} HistoryIsFromRun(requests: seq<Request>, e: Request)
    requires e in Run(requests).1
    ensures e in requests
    decreases |requests|
  {
    hide Admit;
    var n := |requests| - 1;
    if e != requests[n] {
      HistoryIsFromRun(requests[..n], e);
    }
  }

  lemma ProperPrefix(requests: seq<Request>)
    requires Proper(requests) && requests != []
    ensures Proper(requests[..|requests| - 1])
  {
  }

  /** Two in-skew arrivals with one time stamp are at most two skews apart. */
  lemma SameStampClose(requests: seq<Request>)
    requires Proper(requests) && requests != []
    ensures var r := requests[|requests| - 1];
      forall e :: e in requests && e.key == r.key ==> r.now <= e.now + 2 * CLOCK_SKEW
  {
    var r := requests[|requests| - 1];
    forall e | e in requests && e.key == r.key
      ensures r.now <= e.now + 2 * CLOCK_SKEW
    {
      var i :| 0 <= i < |requests| && requests[i] == e;
      assert InSkew(e) && InSkew(r);
    }
  }

  lemma {:induction false} RunTracks(requests: seq<Request>, now: Time)
    requires Proper(requests) && forall i :: 0 <= i < |requests| ==> requests[i].now <= now
    ensures Tracks(Run(requests).0, Run(requests).1, now)
    decreases |requests|
  {
    hide Admit, Tracks;
    if requests == [] {
      TracksEmpty(now);
    } else {
      var r := requests[|requests| - 1];
      var before := requests[..|requests| - 1];
      ProperPrefix(requests);
      RunTracks(before, r.now);
      HistoryClose(requests);
      AdmitTracks(Run(before).0, Run(before).1, r);
      TracksLater(Run(requests).0, Run(requests).1, r.now, now);
    }
  }

  lemma TracksEmpty(now: Time)
    ensures Tracks(EMPTY, [], now)
  {
  }

  lemma HistoryClose(requests: seq<Request>)
    requires Proper(requests) && requests != []
    ensures var r := requests[|requests| - 1];
      forall e :: e in Run(requests[..|requests| - 1]).1 && e.key == r.key ==> r.now <= e.now + 2 * CLOCK_SKEW
  {
    hide Run;
    var before := requests[..|requests| - 1];
    SameStampClose(requests);
    forall e | e in Run(before).1
      ensures e in requests
    {
      HistoryIsFromRun(before, e);
    }
  }

  // ----- results over whole runs

  /** The pruned server gives, at every point of every run, the verdict of the server
      that remembers every admission. */
  lemma PrunedRefinesHistory(requests: seq<Request>)
    requires Proper(requests) && requests != []
    ensures var r := requests[|requests| - 1];
      var (st, history) := Run(requests[..|requests| - 1]);
      Admit(st, r.app, r.key, r.now).0 == Reference(history, r)
  {
    hide Admit, Tracks, Run, Reference;
    ProperPrefix(requests);
    var before := requests[..|requests| - 1];
    RunTracks(before, requests[|requests| - 1].now);
    HistoryClose(requests);
    AdmitTracks(Run(before).0, Run(before).1, requests[|requests| - 1]);
  }

  // ----- what the guard still knows, whatever the order of the clock values

  /** The i-th request of the run was admitted. */
  ghost predicate AdmittedAt(requests: seq<Request>, i: nat)
    requires i < |requests|
  {
    var r := requests[i];
    Admit(Run(requests[..i]).0, r.app, r.key, r.now).0 == Admitted
  }

  /** The i-th request was admitted under this digest, and no later one came with a clock
      value past the two skews for which the digest is kept. */
  ghost predicate Guards(requests: seq<Request>, i: nat, key: Digest)
    requires i < |requests|
  {
    && AdmittedAt(requests, i) && requests[i].key == key
    && forall k :: i < k < |requests| ==> requests[k].now <= requests[i].now + 2 * CLOCK_SKEW
  }

  /** The guard holds exactly the digests of the requests that still guard. */
  ghost predicate GuardExact(seen: map<Digest, Time>, requests: seq<Request>) {
    && (forall i, key :: 0 <= i < |requests| && Guards(requests, i, key) ==>
          key in seen && seen[key] == requests[i].now + 2 * CLOCK_SKEW)
    && (forall key :: key in seen ==> exists i :: 0 <= i < |requests| && Guards(requests, i, key))
  }

  lemma RunLast(requests: seq<Request>)
    requires requests != []
    ensures var n := |requests| - 1;
      Run(requests).0 == Admit(Run(requests[..n]).0, requests[n].app, requests[n].key, requests[n].now).1
  {
    hide Admit;
  }

  lemma GuardsNext(requests: seq<Request>, i: nat, key: Digest)
    requires i < |requests|
    ensures var n := |requests| - 1;
      Guards(requests, i, key) <==>
        if i == n then AdmittedAt(requests, n) && requests[n].key == key
        else Guards(requests[..n], i, key) && requests[n].now <= requests[i].now + 2 * CLOCK_SKEW
  {
    hide Run, Admit;
    var n := |requests| - 1;
    if i < n {
      assert requests[..n][..i] == requests[..i];
      assert forall k :: 0 <= k < n ==> requests[..n][k] == requests[k];
    }
  }

  /** What a purge leaves: the digests that guard up to the request being served. */
  lemma PurgeExact(requests: seq<Request>)
    requires requests != [] && GuardExact(Run(requests[..|requests| - 1]).0.seen, requests[..|requests| - 1])
    ensures var n := |requests| - 1;
      var live := Live(Run(requests[..n]).0.seen, requests[n].now);
      && (forall i, key :: 0 <= i < n && Guards(requests, i, key) ==>
            key in live && live[key] == requests[i].now + 2 * CLOCK_SKEW)
      && (forall key :: key in live ==> exists i :: 0 <= i < n && Guards(requests, i, key))
  {
    hide Run, Guards;
    var n := |requests| - 1;
    var before, live := requests[..n], Live(Run(requests[..n]).0.seen, requests[n].now);
    forall i, key | 0 <= i < n && Guards(requests, i, key)
      ensures key in live && live[key] == requests[i].now + 2 * CLOCK_SKEW
    {
      GuardsNext(requests, i, key);
    }
    forall key | key in live
      ensures exists i :: 0 <= i < n && Guards(requests, i, key)
    {
      var i :| 0 <= i < n && Guards(before, i, key);
      GuardsNext(requests, i, key);
    }
  }

  lemma {:induction false} RunGuards(requests: seq<Request>)
    ensures GuardExact(Run(requests).0.seen, requests)
    decreases |requests|
  {
    hide Run, Guards, Recent, TimesFor, Live;
    if requests == [] {
      RunOfNone();
    } else {
      var n := |requests| - 1;
      RunGuards(requests[..n]);
      PurgeExact(requests);
      RunLast(requests);
      var seen := Run(requests).0.seen;
      forall i, key | 0 <= i < |requests| && Guards(requests, i, key)
        ensures key in seen && seen[key] == requests[i].now + 2 * CLOCK_SKEW
      {
        GuardsNext(requests, i, key);
      }
      forall key | key in seen
        ensures exists i :: 0 <= i < |requests| && Guards(requests, i, key)
      {
        if key == requests[n].key && AdmittedAt(requests, n) {
          GuardsNext(requests, n, key);
        } else {
          assert key in Live(Run(requests[..n]).0.seen, requests[n].now);
        }
      }
    }
  }

  /** In any run, on any clock: a request is refused as a replay exactly when some earlier
      request was admitted under its digest and no request since, itself included, came
      with a clock value more than two skews after that one's. */
  lemma ReplayedIff(requests: seq<Request>)
    requires requests != []
    ensures var n := |requests| - 1;
      var r := requests[n];
      Admit(Run(requests[..n]).0, r.app, r.key, r.now).0 == Replayed <==>
        exists i :: 0 <= i < n && Guards(requests, i, r.key)
  {
    hide Run, Guards, Recent, TimesFor, Live;
    RunGuards(requests[..|requests| - 1]);
    PurgeExact(requests);
  }

  /** No clock value between two requests with one digest, the second included, is more
      than two skews after the first: all that is needed of the order in which requests
      take the lock. */
  ghost predicate NoneOutlived(requests: seq<Request>) {
    forall i, k, j :: 0 <= i < k <= j < |requests| && requests[i].key == requests[j].key ==>
      requests[k].now <= requests[i].now + 2 * CLOCK_SKEW
  }

  /** A clock that does not go back gives that for requests within the skew. */
  lemma ProperOutlivesNone(requests: seq<Request>)
    requires Proper(requests)
    ensures NoneOutlived(requests)
  {
    forall i, k, j | 0 <= i < k <= j < |requests| && requests[i].key == requests[j].key
      ensures requests[k].now <= requests[i].now + 2 * CLOCK_SKEW
    {
      assert InSkew(requests[i]) && InSkew(requests[j]);
    }
  }

  lemma {:induction false} HistoryIsAdmitted(requests: seq<Request>, e: Request)
    requires e in Run(requests).1
    ensures exists i :: 0 <= i < |requests| && AdmittedAt(requests, i) && requests[i] == e
    decreases |requests|
  {
    hide Admit;
    var n := |requests| - 1;
    if e in Run(requests[..n]).1 {
      HistoryIsAdmitted(requests[..n], e);
      var i :| 0 <= i < n && AdmittedAt(requests[..n], i) && requests[..n][i] == e;
      assert requests[..n][..i] == requests[..i];
      assert AdmittedAt(requests, i);
    } else {
      assert AdmittedAt(requests, n);
    }
  }

  /** A digest already admitted is refused. */
  lemma SecondIsReplayed(requests: seq<Request>, e: Request)
    requires NoneOutlived(requests) && requests != [] && e in Run(requests[..|requests| - 1]).1
    requires e.key == requests[|requests| - 1].key
    ensures !AdmittedAt(requests, |requests| - 1)
  {
    hide Run, Admit;
    var n := |requests| - 1;
    HistoryIsAdmitted(requests[..n], e);
    var i :| 0 <= i < n && AdmittedAt(requests[..n], i) && requests[..n][i] == e;
    assert requests[..n][..i] == requests[..i];
    assert Guards(requests, i, e.key);
    ReplayedIff(requests);
  }

  /** No digest is admitted twice. */
  lemma {:induction false} NoReplay(requests: seq<Request>)
    requires NoneOutlived(requests)
    ensures forall i, j :: 0 <= i < j < |Run(requests).1| ==> Run(requests).1[i].key != Run(requests).1[j].key
    decreases |requests|
  {
    hide Admit;
    if requests != [] {
      var n := |requests| - 1;
      var before := requests[..n];
      assert NoneOutlived(before);
      NoReplay(before);
      forall e | e in Run(before).1 && e.key == requests[n].key
        ensures !AdmittedAt(requests, n)
      {
        SecondIsReplayed(requests, e);
      }
    }
  }

  lemma {:induction false} RecentNoLonger(ts: seq<Time>, now: Time)
    ensures |Recent(ts, now)| <= |ts|
  {
    if ts != [] {
      RecentNoLonger(ts[..|ts| - 1], now);
    }
  }

  lemma {:induction false} FewTimes(requests: seq<Request>, app: AppId)
    ensures |TimesFor(Run(requests).0.rate, app)| <= |requests|
    decreases |requests|
  {
    hide Run, Recent, Live;
    if requests == [] {
      RunOfNone();
    } else {
      var n := |requests| - 1;
      var r := requests[n];
      FewTimes(requests[..n], app);
      RunLast(requests);
      RecentNoLonger(TimesFor(Run(requests[..n]).0.rate, r.app), r.now);
    }
  }

  /** In a run too short to reach the rate limit, a request is admitted exactly when no
      earlier one guards its digest. */
  lemma AdmittedIffUnguarded(requests: seq<Request>)
    requires 0 < |requests| <= RATE_PER_MIN
    ensures var n := |requests| - 1;
      AdmittedAt(requests, n) <==> !exists i :: 0 <= i < n && Guards(requests, i, requests[n].key)
  {
    hide Run, Guards, Recent, TimesFor, Live;
    var n := |requests| - 1;
    var r := requests[n];
    ReplayedIff(requests);
    FewTimes(requests[..n], r.app);
    RecentNoLonger(TimesFor(Run(requests[..n]).0.rate, r.app), r.now);
  }

  /** Some condition on the order is needed: three in-skew requests, the third a repeat of
      the first that took the lock after a request two skews later. All are admitted. */
  lemma LateArrivalIsAdmitted()
    ensures var a, b := Request(AppId("app"), Digest("a"), 0, 0), Request(AppId("app"), Digest("b"), 121, 121 * SECOND);
      var late := a.(now := 60 * SECOND);
      && InSkew(a) && InSkew(b) && InSkew(late)
      && Run([a, b, late]).1 == [a, b, late]
  {
    hide Run, Admit;
    var a, b := Request(AppId("app"), Digest("a"), 0, 0), Request(AppId("app"), Digest("b"), 121, 121 * SECOND);
    var late := a.(now := 60 * SECOND);
    var one, two, three := [a], [a, b], [a, b, late];
    assert b.key != a.key && b.now > a.now + 2 * CLOCK_SKEW;
    AdmittedIffUnguarded(one);
    assert !Guards(two, 0, b.key) by { assert two[0].key == a.key; }
    AdmittedIffUnguarded(two);
    assert !Guards(three, 0, late.key) by { assert three[1].now > three[0].now + 2 * CLOCK_SKEW; }
    assert !Guards(three, 1, late.key) by { assert three[1].key == b.key; }
    AdmittedIffUnguarded(three);
    RunOfNone();
    RunNext([], a);
    RunNext(one, b);
    RunNext(two, late);
    assert one[..0] == [] && two[..1] == one && three[..2] == two;
    assert [] + [a] == one && one + [b] == two && two + [late] == three;
  }

  lemma RunOfNone()
    ensures Run([]) == (EMPTY, [])
  {
  }

  lemma RunNext(requests: seq<Request>, r: Request)
    ensures Run(requests + [r]) ==
      var (st, history) := Run(requests);
      var (verdict, st') := Admit(st, r.app, r.key, r.now);
      (st', if verdict == Admitted then history + [r] else history)
  {
    hide Admit;
    assert (requests + [r])[..|requests|] == requests;
  }
}
