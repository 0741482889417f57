/** The key server's request path: the checks of unwrap in order, the stateful admit
    with its in-place rate filter, and what a whole run of requests can unlock. */
module KeyServer {
  import opened Admission
  import opened AdmissionBounds
  import opened Base64
  import opened Gf256
  import opened Prelude
  import opened Text

  // ----- requests and the checks before admission

  /** The primitives: Ed25519 verification of (key, message, signature), the hex of
      SHA-256, address parsing, and opening a wrap with the chip. */
  datatype Crypto = Crypto(
    verify: (seq<byte>, string, seq<byte>) -> bool,
    hexSha: seq<byte> -> string,
    parseIP: string -> Option<seq<byte>>,
    open: seq<byte> -> Option<seq<byte>>)

  datatype AppConfig = AppConfig(key: seq<byte>, ips: seq<string>)

  type Config = map<AppId, AppConfig>

  datatype RawRequest = RawRequest(app: AppId, ts: int, wrap: string, reply: string, sig: string)

  datatype Refusal =
    | UnknownApp | OutsideSkew | Malformed | BadSignature | AddressNotAllowed
    | Replay | RateLimit | WrapDoesNotOpen

  datatype Outcome = Refused(why: Refusal) | Sealed(reply: seq<byte>, bundleKey: seq<byte>)

  function SigMessage(app: string, ts: int, wrapHash: string, reply: string): string {
    "p3sig-ks-v1" + "|" + app + "|" + FormatInt(ts) + "|" + wrapHash + "|" + reply
  }

  predicate IPAllowed(c: Crypto, allowed: seq<string>, ip: string) {
    exists a | a in allowed :: c.parseIP(ip).Some? && c.parseIP(a) == c.parseIP(ip)
  }

  /** ksIPAllowed */
  method CheckIP(c: Crypto, allowed: seq<string>, ip: string) returns (ok: bool)
    ensures ok <==> IPAllowed(c, allowed, ip)
    ensures ok <==> exists a :: a in allowed && c.parseIP(a).Some? && c.parseIP(a) == c.parseIP(ip)
  {
    var got := c.parseIP(ip);
    for i := 0 to |allowed|
      invariant forall k :: 0 <= k < i ==> !(got.Some? && c.parseIP(allowed[k]) == got)
    {
      if got.Some? && c.parseIP(allowed[i]) == got {
        return true;
      }
    }
    ok := false;
  }

  /** One arrival: the configuration in force, the request, and where it came from. */
  datatype Call = Call(cfg: Config, req: RawRequest, ip: string, now: Time)

  /** The decoded fields of a request that passed every check before admission. */
  datatype Checked = Checked(wrap: seq<byte>, reply: seq<byte>, sig: seq<byte>)

  /** The checks of unwrap up to admission, in its order. */
  function Gate(c: Crypto, call: Call): Result<Checked, Refusal> {
    var req := call.req;
    if req.app !in call.cfg then Err(UnknownApp)
    else if !(-CLOCK_SKEW <= call.now - req.ts * SECOND <= CLOCK_SKEW) then Err(OutsideSkew)
    else
      var (wrap, reply, sig) := (Decode(req.wrap), Decode(req.reply), Decode(req.sig));
      if wrap.None? || reply.None? || sig.None? || |reply.value| != 32 || |sig.value| != 64 then Err(Malformed)
      else
        var app := call.cfg[req.app];
        if !c.verify(app.key, SigMessage(req.app.name, req.ts, c.hexSha(wrap.value), req.reply), sig.value) then
          Err(BadSignature)
        else if |app.ips| > 0 && !IPAllowed(c, app.ips, call.ip) then Err(AddressNotAllowed)
        else Ok(Checked(wrap.value, reply.value, sig.value))
  }

  /** unwrap on values. */
  function UnwrapOn(c: Crypto, st: State, call: Call): (Outcome, State) {
    match Gate(c, call)
    case Err(why) => (Refused(why), st)
    case Ok(x) =>
      var (verdict, st') := Admission.Admit(st, call.req.app, Digest(c.hexSha(x.sig)), call.now);
      match verdict
      case Replayed => (Refused(Replay), st')
      case RateLimited => (Refused(RateLimit), st')
      case Admitted =>
        match c.open(x.wrap)
        case None => (Refused(WrapDoesNotOpen), st')
        case Some(bundleKey) => (Sealed(x.reply, bundleKey), st')
  }

  // ----- admission as the server does it

  /** A slice: a backing array and how much of it is in use. */
  datatype Slice = Slice(buf: array<Time>, len: nat)

  /** What a slice holds. */
  ghost function Cells(s: Slice): seq<Time>
    requires s.len <= s.buf.Length
    reads s.buf
  {
    s.buf[..s.len]
  }

  /** The loop that appends what it keeps into the array it ranges over. */
  method FilterInPlace(buf: array<Time>, len: nat, now: Time) returns (k: nat)
    requires len <= buf.Length
    modifies buf
    ensures k <= len && buf[..k] == Recent(old(buf[..len]), now)
  {
    k := 0;
    ghost var was := buf[..len];
    for i := 0 to len
      invariant k <= i
      invariant buf[..k] == Recent(was[..i], now)
      invariant forall j :: i <= j < len ==> buf[j] == was[j]
    {
      var t := buf[i];
      assert was[..i + 1][..i] == was[..i];
      if now - t < MINUTE {
        buf[k] := t;
        k := k + 1;
        assert buf[..k] == buf[..k - 1] + [t];
      }
    }
    assert was[..len] == was;
  }

  /** append: in place while the array has room, otherwise into a larger one. */
  method Append(buf: array<Time>, n: nat, t: Time) returns (s: Slice)
    requires n <= buf.Length
    modifies buf
    ensures s.len == n + 1 <= s.buf.Length && Cells(s) == old(buf[..n]) + [t]
    ensures s.buf == buf || fresh(s.buf)
  {
    if n < buf.Length {
      buf[n] := t;
      assert buf[..n + 1] == old(buf[..n]) + [t];
      return Slice(buf, n + 1);
    }
    var grown := new Time[2 * n + 1];
    for i := 0 to n
      invariant grown[..i] == buf[..i] && buf[..n] == old(buf[..n])
    {
      grown[i] := buf[i];
    }
    grown[n] := t;
    assert grown[..n + 1] == old(buf[..n]) + [t];
    s := Slice(grown, n + 1);
  }

  /** The rate window of one app: filter, then add `now` unless the limit is reached. */
  method FilterAndAdd(slice: Slice, now: Time) returns (stored: Slice, limited: bool)
    requires slice.len <= slice.buf.Length
    modifies slice.buf
    ensures stored.len <= stored.buf.Length && (stored.buf == slice.buf || fresh(stored.buf))
    ensures var recent := Recent(old(Cells(slice)), now);
      && (limited <==> |recent| >= RATE_PER_MIN)
      && Cells(stored) == if limited then recent else recent + [now]
  {
    var n := FilterInPlace(slice.buf, slice.len, now);
    limited := n >= RATE_PER_MIN;
    if limited {
      stored := Slice(slice.buf, n);
    } else {
      stored := Append(slice.buf, n, now);
    }
  }

  class Server {
    const crypto: Crypto
    var seen: map<Digest, Time>
    var rate: map<AppId, Slice>
    ghost var repr: set<array<Time>>  // the backing arrays of the slices

    /** Every slice is within its array, and no two apps share an array. */
    ghost predicate Valid()
      reads this`rate, this`repr, repr
    {
      && (forall app :: app in rate ==> rate[app].buf in repr && rate[app].len <= rate[app].buf.Length)
      && (forall app, other :: app in rate && other in rate && app != other ==> rate[app].buf != rate[other].buf)
    }

    ghost function Times(): (times: map<AppId, seq<Time>>)
      requires Valid()
      reads this`rate, this`repr, repr
      ensures times.Keys == rate.Keys
    {
      map app | app in rate :: Cells(rate[app])
    }

    ghost function View(): State
      requires Valid()
      reads this, repr
    {
      State(seen, Times())
    }

    constructor (crypto: Crypto)
      ensures this.crypto == crypto && Valid() && View() == EMPTY && repr == {}
    {
      this.crypto := crypto;
      seen := map[];
      rate := map[];
      repr := {};
    }

    /** The first loop of admit: drop every entry whose expiry has passed. */
    method Purge(now: Time)
      modifies this`seen
      ensures seen == Live(old(seen), now)
    {
      var keys := seen.Keys;
      while keys != {}
        invariant keys <= old(seen).Keys
        invariant seen == map k | k in old(seen) && (k in keys || now <= old(seen)[k]) :: old(seen)[k]
        decreases keys
      {
        var k :| k in keys;
        if now > seen[k] {
          seen := seen - {k};
        }
        keys := keys - {k};
      }
    }

    /** The slice of an app; the nil slice when it has none. */
    method SliceOf(app: AppId) returns (slice: Slice)
      requires Valid()
      ensures slice.len <= slice.buf.Length && Cells(slice) == TimesFor(Times(), app)
      ensures app in rate ==> slice == rate[app]
      ensures app !in rate ==> fresh(slice.buf)
    {
      if app in rate {
        slice := rate[app];
      } else {
        var none := new Time[0];
        slice := Slice(none, 0);
      }
    }

    /** Puts a slice into the map; the other apps hold what `times` says. */
    method Store(app: AppId, slice: Slice, ghost times: map<AppId, seq<Time>>)
      requires Valid() && slice.len <= slice.buf.Length && times.Keys == rate.Keys
      requires forall other :: other in rate && other != app ==>
        rate[other].buf != slice.buf && Cells(rate[other]) == times[other]
      modifies this`rate, this`repr
      ensures Valid() && repr == old(repr) + {slice.buf}
      ensures Times() == times[app := Cells(slice)]
    {
      hide Cells;
      rate := rate[app := slice];
      repr := repr + {slice.buf};
      assert Valid();
      assert forall other :: other in rate ==> Cells(rate[other]) == times[app := Cells(slice)][other];
    }

    /** The rate half of admit. */
    method RecordTime(app: AppId, now: Time) returns (limited: bool)
      requires Valid()
      modifies this`rate, this`repr, repr
      ensures Valid() && fresh(repr - old(repr))
      ensures var recent := Recent(TimesFor(old(Times()), app), now);
        && (limited <==> |recent| >= RATE_PER_MIN)
        && Times() == old(Times())[app := if limited then recent else recent + [now]]
    {
      hide Recent, Cells;
      ghost var times := Times();
      var slice := SliceOf(app);
      assert forall other :: other in rate && other != app ==> Cells(rate[other]) == times[other];
      hide Times;
      var stored;
      stored, limited := FilterAndAdd(slice, now);
      Store(app, stored, times);
    }

    /** admit */
    method Admit(app: AppId, sig: seq<byte>, now: Time) returns (verdict: Verdict)
      requires Valid()
      modifies this, repr
      ensures Valid() && fresh(repr - old(repr))
      ensures (verdict, View()) == Admission.Admit(old(View()), app, Digest(crypto.hexSha(sig)), now)
    {
      hide Recent, Live, Valid, Times, Cells, TimesFor;
      Purge(now);
      var key := Digest(crypto.hexSha(sig));
      if key in seen {
        return Replayed;
      }
      var limited := RecordTime(app, now);
      if limited {
        return RateLimited;
      }
      seen := seen[key := now + 2 * CLOCK_SKEW];
      verdict := Admitted;
    }

    /** unwrap: the gate's checks one by one, admission, and only then the chip. */
    method Unwrap(call: Call) returns (r: Outcome)
      requires Valid()
      modifies this, repr
      ensures Valid() && fresh(repr - old(repr))
      ensures (r, View()) == UnwrapOn(crypto, old(View()), call)
    {
      hide IPAllowed, SigMessage, Decode, Admission.Admit;
      var req := call.req;
      if req.app !in call.cfg {
        return Refused(UnknownApp);
      }
      var app := call.cfg[req.app];
      var d := call.now - req.ts * SECOND;
      if d > CLOCK_SKEW || d < -CLOCK_SKEW {
        return Refused(OutsideSkew);
      }
      var wrap, reply, sig := Decode(req.wrap), Decode(req.reply), Decode(req.sig);
      if wrap.None? || reply.None? || sig.None? || |reply.value| != 32 || |sig.value| != 64 {
        return Refused(Malformed);
      }
      if !crypto.verify(app.key, SigMessage(req.app.name, req.ts, crypto.hexSha(wrap.value), req.reply), sig.value) {
        return Refused(BadSignature);
      }
      if |app.ips| > 0 {
        var ok := CheckIP(crypto, app.ips, call.ip);
        if !ok {
          return Refused(AddressNotAllowed);
        }
      }
      var verdict := Admit(req.app, sig.value, call.now);
      if verdict == Replayed {
        return Refused(Replay);
      } else if verdict == RateLimited {
        return Refused(RateLimit);
      }
      var chip := crypto.open(wrap.value);
      if chip.None? {
        return Refused(WrapDoesNotOpen);
      }
      r := Sealed(reply.value, chip.value);
    }
  }

  // ----- what a signature covers

  /** What is assumed of the primitives: a signature verifies for one message only,
      the hash has no collisions, and its hex has no separator. */
  ghost predicate Sound(c: Crypto) {
    && (forall pub, pub', m, m', sig :: c.verify(pub, m, sig) && c.verify(pub', m', sig) ==> m == m')
    && (forall a, b :: c.hexSha(a) == c.hexSha(b) ==> a == b)
    && (forall a :: '|' !in c.hexSha(a))
  }

  lemma NoBar(n: int)
    ensures '|' !in FormatInt(n)
  {
  }

  lemma ReplyHasNoBar(reply: string)
    requires Decode(reply).Some?
    ensures '|' !in reply
  {
    if '|' in reply {
      DecodableChars(reply, '|');
    }
  }

  /** The signed text determines app, time stamp, wrap hash and reply key, whatever
      characters the app name holds. */
  lemma SigMessageUnambiguous(app: string, ts: int, h: string, reply: string, app': string, ts': int, h': string,
      reply': string)
    requires SigMessage(app, ts, h, reply) == SigMessage(app', ts', h', reply')
    requires '|' !in h && '|' !in h' && Decode(reply).Some? && Decode(reply').Some?
    ensures app == app' && ts == ts' && h == h' && reply == reply'
  {
    hide FormatInt, Decode;
    ReplyHasNoBar(reply);
    ReplyHasNoBar(reply');
    NoBar(ts);
    NoBar(ts');
    var a, a' := "p3sig-ks-v1" + "|" + app, "p3sig-ks-v1" + "|" + app';
    var b, b' := a + "|" + FormatInt(ts), a' + "|" + FormatInt(ts');
    var m, m' := b + "|" + h, b' + "|" + h';
    LastSeparator('|', m, reply, m', reply');
    LastSeparator('|', b, h, b', h');
    LastSeparator('|', a, FormatInt(ts), a', FormatInt(ts'));
    assert app == a[12..] && app' == a'[12..];
    FormatIntInjective(ts, ts');
  }

  // ----- whole runs

  /** An admitted request: the chip is used for it once, and for nothing else. */
  datatype Agreement = Agreement(call: Call, sig: seq<byte>)

  /** State and agreements after a run of calls, in the order they take the lock. */
  ghost function Serve(c: Crypto, calls: seq<Call>): (State, seq<Agreement>) {
    if calls == [] then (EMPTY, [])
    else
      var call := calls[|calls| - 1];
      var (st, done) := Serve(c, calls[..|calls| - 1]);
      var (outcome, st') := UnwrapOn(c, st, call);
      var reached := outcome.Sealed? || outcome.why == WrapDoesNotOpen;
      (st', if reached then done + [Agreement(call, Gate(c, call).value.sig)] else done)
  }

  function RequestOf(c: Crypto, call: Call, sig: seq<byte>): Request {
    Request(call.req.app, Digest(c.hexSha(sig)), call.req.ts, call.now)
  }

  /** The requests of a run that reach admission. */
  ghost function Reaching(c: Crypto, calls: seq<Call>): seq<Request> {
    if calls == [] then []
    else
      var call := calls[|calls| - 1];
      Reaching(c, calls[..|calls| - 1])
      + match Gate(c, call) case Err(_) => [] case Ok(x) => [RequestOf(c, call, x.sig)]
  }

  /** The clock values of the calls that reach admission do not go back; what the other
      calls read does not matter. */
  ghost predicate ClockForward(c: Crypto, calls: seq<Call>) {
    forall i, j :: 0 <= i < j < |calls| && Gate(c, calls[i]).Ok? && Gate(c, calls[j]).Ok? ==>
      calls[i].now <= calls[j].now
  }

  lemma {:induction false} ReachingFrom(c: Crypto, calls: seq<Call>, r: Request)
    requires r in Reaching(c, calls)
    ensures exists call :: call in calls && Gate(c, call).Ok? && r == RequestOf(c, call, Gate(c, call).value.sig)
    decreases |calls|
  {
    hide Gate;
    var n := |calls| - 1;
    if r in Reaching(c, calls[..n]) {
      ReachingFrom(c, calls[..n], r);
    }
  }

  /** Requests that reach admission under one digest carry one time stamp. */
  lemma SameDigestSameStamp(c: Crypto, call: Call, call': Call)
    requires Sound(c) && Gate(c, call).Ok? && Gate(c, call').Ok?
    requires c.hexSha(Gate(c, call).value.sig) == c.hexSha(Gate(c, call').value.sig)
    ensures call.req.ts == call'.req.ts && call.req.app == call'.req.app
  {
    hide SigMessage, Decode, IPAllowed;
    var x, x' := Gate(c, call).value, Gate(c, call').value;
    SigMessageUnambiguous(call.req.app.name, call.req.ts, c.hexSha(x.wrap), call.req.reply,
      call'.req.app.name, call'.req.ts, c.hexSha(x'.wrap), call'.req.reply);
  }

  lemma {:induction false} ReachingProper(c: Crypto, calls: seq<Call>)
    requires Sound(c) && ClockForward(c, calls)
    ensures Proper(Reaching(c, calls))
    decreases |calls|
  {
    hide Gate;
    if calls != [] {
      var n := |calls| - 1;
      var before, call := Reaching(c, calls[..n]), calls[n];
      ReachingProper(c, calls[..n]);
      if Gate(c, call).Ok? {
        var r := RequestOf(c, call, Gate(c, call).value.sig);
        GateInSkew(c, call);
        forall i | 0 <= i < |before|
          ensures before[i].now <= r.now
          ensures before[i].key == r.key ==> before[i].ts == r.ts
        {
          ReachingFrom(c, calls[..n], before[i]);
          var call' :| call' in calls[..n] && Gate(c, call').Ok?
            && before[i] == RequestOf(c, call', Gate(c, call').value.sig);
          if before[i].key == r.key {
            SameDigestSameStamp(c, call', call);
          }
        }
      }
    }
  }

  lemma GateInSkew(c: Crypto, call: Call)
    requires Gate(c, call).Ok?
    ensures InSkew(RequestOf(c, call, Gate(c, call).value.sig))
  {
    hide SigMessage, Decode, IPAllowed;
  }

  function Requested(c: Crypto, done: seq<Agreement>): (r: seq<Request>)
    ensures |r| == |done|
  {
    seq(|done|, i requires 0 <= i < |done| => RequestOf(c, done[i].call, done[i].sig))
  }

  /** Serving calls runs the admission rule on the requests that reach it. */
  lemma {:induction false} ServeIsRun(c: Crypto, calls: seq<Call>)
    ensures Serve(c, calls).0 == Run(Reaching(c, calls)).0
    ensures Requested(c, Serve(c, calls).1) == Run(Reaching(c, calls)).1
    decreases |calls|
  {
    hide Gate, Admission.Admit, Run;
    if calls == [] {
      RunOfNone();
    } else {
      var n := |calls| - 1;
      ServeIsRun(c, calls[..n]);
      if Gate(c, calls[n]).Ok? {
        RunNext(Reaching(c, calls[..n]), RequestOf(c, calls[n], Gate(c, calls[n]).value.sig));
      } else {
        GateIsBeforeChip(c, calls[n]);
        assert Reaching(c, calls[..n]) + [] == Reaching(c, calls[..n]);
      }
    }
  }

  lemma GateIsBeforeChip(c: Crypto, call: Call)
    ensures Gate(c, call) != Err(WrapDoesNotOpen)
  {
    hide SigMessage, Decode, IPAllowed;
  }

  /** A clock that does not go back lets no guard entry lapse too early. */
  lemma ForwardOutlivesNone(c: Crypto, calls: seq<Call>)
    requires Sound(c) && ClockForward(c, calls)
    ensures NoneOutlived(Reaching(c, calls))
  {
    hide Reaching;
    ReachingProper(c, calls);
    ProperOutlivesNone(Reaching(c, calls));
  }

  lemma SignaturesDiffer(c: Crypto, calls: seq<Call>)
    requires NoneOutlived(Reaching(c, calls))
    ensures var done := Serve(c, calls).1;
      forall i, j :: 0 <= i < j < |done| ==> done[i].sig != done[j].sig
  {
    hide Run, Reaching, Serve, NoneOutlived;
    ServeIsRun(c, calls);
    NoReplay(Reaching(c, calls));
    var done := Serve(c, calls).1;
    forall i, j | 0 <= i < j < |done|
      ensures done[i].sig != done[j].sig
    {
      assert Requested(c, done)[i].key != Requested(c, done)[j].key;
    }
  }

  /** Every agreement of a run is for a signature that the app's key made over the app, an
      in-skew time stamp, the wrap and the reply key. The signatures are all different when
      no guard entry lapses between two uses, as on a clock that does not go back. */
  lemma UnlockedOnce(c: Crypto, calls: seq<Call>)
    ensures var done := Serve(c, calls).1;
      && (NoneOutlived(Reaching(c, calls)) || (Sound(c) && ClockForward(c, calls)) ==>
            forall i, j :: 0 <= i < j < |done| ==> done[i].sig != done[j].sig)
      && (forall a :: a in done ==> Authentic(c, a) && a.call in calls)
  {
    hide Run, Reaching, Serve, NoneOutlived, Authentic, Sound, ClockForward;
    if Sound(c) && ClockForward(c, calls) {
      ForwardOutlivesNone(c, calls);
    }
    if NoneOutlived(Reaching(c, calls)) {
      SignaturesDiffer(c, calls);
    }
    var done := Serve(c, calls).1;
    forall a | a in done
      ensures Authentic(c, a) && a.call in calls
    {
      ServedAuthentic(c, calls, a);
    }
  }

  ghost predicate Authentic(c: Crypto, a: Agreement) {
    var req := a.call.req;
    && req.app in a.call.cfg
    && -60_000_000_000 <= a.call.now - req.ts * 1_000_000_000 <= 60_000_000_000
    && Decode(req.wrap).Some? && Decode(req.reply).Some? && Decode(req.sig) == Some(a.sig)
    && |Decode(req.reply).value| == 32 && |a.sig| == 64
    && c.verify(a.call.cfg[req.app].key,
      SigMessage(req.app.name, req.ts, c.hexSha(Decode(req.wrap).value), req.reply), a.sig)
    && (a.call.cfg[req.app].ips == [] || IPAllowed(c, a.call.cfg[req.app].ips, a.call.ip))
  }

  /** Helper: the checks before admission pass exactly the authentic requests. */
  lemma GateIff(c: Crypto, call: Call, sig: seq<byte>)
    ensures Gate(c, call).Ok? && Gate(c, call).value.sig == sig <==> Authentic(c, Agreement(call, sig))
  {
    hide Decode, SigMessage, IPAllowed;
    assert call.req.app in call.cfg && call.cfg[call.req.app].ips == [] ==> |call.cfg[call.req.app].ips| == 0;
  }

  lemma {:induction false} ServedAuthentic(c: Crypto, calls: seq<Call>, a: Agreement)
    requires a in Serve(c, calls).1
    ensures Authentic(c, a) && a.call in calls
    decreases |calls|
  {
    hide Decode, SigMessage, IPAllowed, Admission.Admit;
    var n := |calls| - 1;
    if a in Serve(c, calls[..n]).1 {
      ServedAuthentic(c, calls[..n], a);
    } else {
      assert a.call == calls[n];
    }
  }

  /** Helper: the last call of a run as the last request of the run that reaches admission. */
  lemma LastReaching(c: Crypto, calls: seq<Call>)
    requires Sound(c) && ClockForward(c, calls) && calls != [] && Gate(c, calls[|calls| - 1]).Ok?
    ensures var before, r := Reaching(c, calls[..|calls| - 1]),
      RequestOf(c, calls[|calls| - 1], Gate(c, calls[|calls| - 1]).value.sig);
      && Reaching(c, calls) == before + [r] && (before + [r])[..|before|] == before
      && Proper(before + [r]) && Proper(before)
      && Serve(c, calls[..|calls| - 1]).0 == Run(before).0
      && Requested(c, Serve(c, calls[..|calls| - 1]).1) == Run(before).1
  {
    hide Gate, Serve, Run;
    ReachingProper(c, calls);
    ServeIsRun(c, calls[..|calls| - 1]);
    ProperPrefix(Reaching(c, calls));
  }

  /** Helper: the verdict of admission in terms of times and digests of the full history. */
  lemma AdmittedIff(before: seq<Request>, r: Request)
    requires Proper(before + [r]) && Proper(before)
    ensures Admission.Admit(Run(before).0, r.app, r.key, r.now).0 == Admitted <==>
      && !Remembers(Run(before).1, r.key)
      && |Window(TimesOf(Run(before).1, r.app), r.now - MINUTE + 1, r.now + 1)| < RATE_PER_MIN
  {
    hide Admission.Admit, Run, Recent, TimesOf, Window;
    var requests := before + [r];
    assert requests[..|requests| - 1] == before && requests[|requests| - 1] == r;
    PrunedRefinesHistory(requests);
    assert forall i :: 0 <= i < |before| ==> before[i] == requests[i];
    RunSpaced(before, r.app, r.now);
    RecentIsWindow(TimesOf(Run(before).1, r.app), r.now);
  }

  /** Helper: hashing the signature remembers the signature. */
  lemma RememberedIff(c: Crypto, done: seq<Agreement>, sig: seq<byte>)
    requires Sound(c)
    ensures Remembers(Requested(c, done), Digest(c.hexSha(sig))) <==> exists a :: a in done && a.sig == sig
  {
    var history := Requested(c, done);
    if a :| a in done && a.sig == sig {
      var i :| 0 <= i < |done| && done[i] == a;
      assert history[i] in history;
    }
    if Remembers(history, Digest(c.hexSha(sig))) {
      var e :| e in history && e.key == Digest(c.hexSha(sig));
      var i :| 0 <= i < |history| && history[i] == e;
      assert done[i] in done;
    }
  }

  /** A call with this signature that must be answered, given the agreements so far: it is
      authentic, its signature has not been used, fewer than 30 of its app were admitted
      in the minute up to it, and the chip opens its wrap. */
  ghost predicate Answerable(c: Crypto, done: seq<Agreement>, call: Call, sig: seq<byte>) {
    && Authentic(c, Agreement(call, sig))
    && (forall a :: a in done ==> a.sig != sig)
    && |Window(TimesOf(Requested(c, done), call.req.app), call.now - 60_000_000_000 + 1, call.now + 1)| < 30
    && c.open(Decode(call.req.wrap).value).Some?
  }

  /** At every point of every run a call is answered exactly when it must be, with the key
      that its wrap holds, for the reply key that it signed. */
  lemma AnsweredIff(c: Crypto, calls: seq<Call>)
    requires Sound(c) && ClockForward(c, calls) && calls != []
    ensures var call := calls[|calls| - 1];
      var (st, done) := Serve(c, calls[..|calls| - 1]);
      var outcome := UnwrapOn(c, st, call).0;
      && (outcome.Sealed? <==> exists sig :: Answerable(c, done, call, sig))
      && (outcome.Sealed? ==>
            Decode(call.req.reply) == Some(outcome.reply)
            && Decode(call.req.wrap).Some? && c.open(Decode(call.req.wrap).value) == Some(outcome.bundleKey))
  {
    hide Admission.Admit, Run, Serve, Reaching, Authentic, TimesOf, Window, Requested, Decode, SigMessage, IPAllowed;
    var call := calls[|calls| - 1];
    var (st, done) := Serve(c, calls[..|calls| - 1]);
    forall sig
      ensures Gate(c, call).Ok? && Gate(c, call).value.sig == sig <==> Authentic(c, Agreement(call, sig))
    {
      GateIff(c, call, sig);
    }
    if Gate(c, call).Ok? {
      var sig := Gate(c, call).value.sig;
      LastReaching(c, calls);
      AdmittedIff(Reaching(c, calls[..|calls| - 1]), RequestOf(c, call, sig));
      RememberedIff(c, done, sig);
      assert UnwrapOn(c, st, call).0.Sealed? <==> Answerable(c, done, call, sig);
    }
  }

  /** The signed text of a request, written out. */
  lemma SigMessageText()
    ensures SigMessage("app", 5, "hash", "reply") == "p3sig-ks-v1|app|5|hash|reply"
  {
    assert Decimal(5) == "5";
  }

  /** Why a call that does not get to admission is refused. */
  ghost predicate GateReason(c: Crypto, call: Call, why: Refusal) {
    var req := call.req;
    var known := req.app in call.cfg;
    var inSkew := -60_000_000_000 <= call.now - req.ts * 1_000_000_000 <= 60_000_000_000;
    var formed := Decode(req.wrap).Some? && Decode(req.reply).Some? && Decode(req.sig).Some?
      && |Decode(req.reply).value| == 32 && |Decode(req.sig).value| == 64;
    match why
    case UnknownApp => !known
    case OutsideSkew => known && !inSkew
    case Malformed => known && inSkew && !formed
    case BadSignature =>
      && known && inSkew && formed
      && !c.verify(call.cfg[req.app].key,
            SigMessage(req.app.name, req.ts, c.hexSha(Decode(req.wrap).value), req.reply), Decode(req.sig).value)
    case AddressNotAllowed =>
      && known && inSkew && formed
      && c.verify(call.cfg[req.app].key,
           SigMessage(req.app.name, req.ts, c.hexSha(Decode(req.wrap).value), req.reply), Decode(req.sig).value)
      && call.cfg[req.app].ips != [] && !IPAllowed(c, call.cfg[req.app].ips, call.ip)
    case _ => false
  }

  lemma GateRefusedIff(c: Crypto, call: Call, why: Refusal)
    ensures Gate(c, call) == Err(why) <==> GateReason(c, call, why)
  {
    hide Decode, SigMessage, IPAllowed;
  }

  /** Why a call of a run is refused, given the agreements so far: for the gate's reasons, or
      because its signature was used, 30 of its app were admitted in the minute, or the chip
      does not open its wrap. */
  ghost predicate RefusedFor(c: Crypto, done: seq<Agreement>, call: Call, why: Refusal) {
    if why.Replay? || why.RateLimit? || why.WrapDoesNotOpen? then
      exists sig ::
        && Authentic(c, Agreement(call, sig))
        && var used := exists a :: a in done && a.sig == sig;
        var full := |Window(TimesOf(Requested(c, done), call.req.app), call.now - 60_000_000_000 + 1, call.now + 1)|
          >= 30;
        match why
        case Replay => used
        case RateLimit => !used && full
        case _ => !used && !full && c.open(Decode(call.req.wrap).value) == None
    else GateReason(c, call, why)
  }

  /** At every point of every run the refusal of a call says exactly why. */
  lemma RefusedIff(c: Crypto, calls: seq<Call>, why: Refusal)
    requires Sound(c) && ClockForward(c, calls) && calls != []
    ensures var call := calls[|calls| - 1];
      var (st, done) := Serve(c, calls[..|calls| - 1]);
      UnwrapOn(c, st, call).0 == Refused(why) <==> RefusedFor(c, done, call, why)
  {
    hide Admission.Admit, Run, Serve, Reaching, Authentic, TimesOf, Window, Requested, Decode, GateReason, Gate;
    var call := calls[|calls| - 1];
    var (st, done) := Serve(c, calls[..|calls| - 1]);
    forall sig
      ensures Gate(c, call).Ok? && Gate(c, call).value.sig == sig <==> Authentic(c, Agreement(call, sig))
    {
      GateIff(c, call, sig);
    }
    GateRefusedIff(c, call, why);
    GateNamesItsOwn(c, call);
    if Gate(c, call).Ok? {
      var sig := Gate(c, call).value.sig;
      GateWrap(c, call);
      LastReaching(c, calls);
      AdmissionVerdict(Reaching(c, calls[..|calls| - 1]), RequestOf(c, call, sig));
      RememberedIff(c, done, sig);
      assert Authentic(c, Agreement(call, sig));
    }
  }

  lemma GateNamesItsOwn(c: Crypto, call: Call)
    ensures Gate(c, call).Err? ==>
      !Gate(c, call).error.Replay? && !Gate(c, call).error.RateLimit? && !Gate(c, call).error.WrapDoesNotOpen?
  {
    hide Decode, SigMessage, IPAllowed;
  }

  lemma GateWrap(c: Crypto, call: Call)
    requires Gate(c, call).Ok?
    ensures Decode(call.req.wrap) == Some(Gate(c, call).value.wrap)
  {
    hide Decode, SigMessage, IPAllowed;
  }

  /** Helper: each verdict of admission in terms of the full history. */
  lemma AdmissionVerdict(before: seq<Request>, r: Request)
    requires Proper(before + [r]) && Proper(before)
    ensures var verdict := Admission.Admit(Run(before).0, r.app, r.key, r.now).0;
      && (verdict == Replayed <==> Remembers(Run(before).1, r.key))
      && (verdict == RateLimited <==>
            && !Remembers(Run(before).1, r.key)
            && |Window(TimesOf(Run(before).1, r.app), r.now - MINUTE + 1, r.now + 1)| >= RATE_PER_MIN)
  {
    hide Admission.Admit, Run, Recent, TimesOf, Window, Remembers;
    var requests := before + [r];
    assert requests[..|requests| - 1] == before && requests[|requests| - 1] == r;
    PrunedRefinesHistory(requests);
    AdmittedIff(before, r);
  }
}
