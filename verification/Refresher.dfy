/** The refresher: one timer tick that vouches for the current policy, what every run
    of ticks posts, and why agents that see the posts keep accepting. Times of ticks are
    nanoseconds, times inside statements are Unix seconds. */
module Refresher {
  import opened Base64
  import opened Gf256
  import opened Prelude
  import opened SignedPolicy
  import opened PolicyTheorems

  const SECOND := 1_000_000_000
  const HOUR := 3600 * SECOND
  const MAX_WINDOW := 7 * 24 * HOUR
  const DEFAULT_WINDOW := 36 * HOUR

  function Unix(t: int): int { t / SECOND }

  /** An int64, with wrap-around. */
  function Int64(n: int): int {
    (n + 0x8000_0000_0000_0000) % 0x1_0000_0000_0000_0000 - 0x8000_0000_0000_0000
  }

  /** The refresher's own floor. */
  datatype RefreshState = RefreshState(version: int, revocationsVersion: int, issued: int)

  /** What freshnessGetCurrent returns. */
  datatype Current = Current(response: Response, policyHash: string, windowHours: int)

  /** One tick: whether the key signs the request for the current policy, the server's
      answer, if any, the time, whether the key signs the statement, and whether the post
      succeeds. */
  datatype Tick = Tick(asks: bool, current: Option<Current>, now: int, signs: bool, posted: bool)

  /** The refresher's settings; a window of 0 leaves it to the account. */
  datatype Config = Config(key: Key, account: string, group: string, rootFP: string, window: int)

  /** Signing as the freshness key, and encoding a statement. */
  datatype SigningKey = SigningKey(sign: Freshness -> Blob)

  ghost predicate Signs(c: Crypto, key: Key, k: SigningKey) {
    forall f :: Bind(Opened(c, key, CtxFreshness, k.sign(f)), c.freshness) == Some(f)
  }

  datatype RefreshError =
    | BadWindow | RequestNotSigned | NoAnswer | NoAccountPolicy | OwnKeyRevoked | OtherPolicy | Withheld
    | HashUnreadable | HashDiffers | NotSigned | NotPosted | Refused(e: PolicyError)

  /** The window a tick uses: the account's when it is valid and the flag does not ask
      for less, otherwise the flag's, otherwise the default. */
  function ChosenWindow(window: int, windowHours: int): int {
    var acct := Int64(windowHours * HOUR);
    if 0 < acct <= MAX_WINDOW && (window == 0 || window > acct) then acct
    else if window == 0 then DEFAULT_WINDOW
    else window
  }

  /** The checks of a tick, up to the statement it will sign. */
  function Statement(c: Crypto, cfg: Config, st: RefreshState, tick: Tick): Result<Freshness, RefreshError> {
    if cfg.window < 0 || cfg.window > MAX_WINDOW then Err(BadWindow)
    else if !tick.asks then Err(RequestNotSigned)
    else if tick.current.None? then Err(NoAnswer)
    else
      var cur := tick.current.value;
      var sp := cur.response;
      if !IsAccountFormat(sp) then Err(NoAccountPolicy)
      else
        match RootAndRevocations(c, sp, cfg.rootFP, st.revocationsVersion)
        case Err(e) => Err(Refused(e))
        case Ok(trust) =>
          if c.fingerprint(cfg.key) in trust.revoked then Err(OwnKeyRevoked)
          else
            match SignerOf(c, sp, trust, Unix(tick.now))
            case Err(e) => Err(Refused(e))
            case Ok(signer) =>
              match Bind(Opened(c, signer.key, CtxAccountPolicy, sp.accountPolicy.value), c.accountPolicy)
              case None => Err(Refused(BadPolicy))
              case Some(ap) =>
                if ap.account != cfg.account || ap.account !in signer.accounts || ap.group != cfg.group then
                  Err(OtherPolicy)
                else if ap.version < st.version then Err(Withheld)
                else
                  match PolicyHash(c, sp.accountPolicy.value)
                  case None => Err(HashUnreadable)
                  case Some(hash) =>
                    if cur.policyHash != "" && cur.policyHash != hash then Err(HashDiffers)
                    else
                      var issued := Unix(tick.now);
                      Ok(Freshness(cfg.account, cfg.group, hash, ap.version,
                        if issued <= st.issued then st.issued + 1 else issued,
                        Unix(tick.now + ChosenWindow(cfg.window, cur.windowHours))))
  }

  /** The floor after a successful post. */
  function NextRefresh(c: Crypto, cfg: Config, st: RefreshState, sp: Response, f: Freshness): RefreshState {
    RefreshState(f.version,
      match (c.parseKey(sp.rootKey), sp.revocations)
      case (Some(root), Some(b)) =>
        (match OpenRevocations(c, root, b)
         case Some(r) => Max(st.revocationsVersion, r.version)
         case None => st.revocationsVersion)
      case _ => st.revocationsVersion,
      f.issued)
  }

  class Refresher {
    const c: Crypto
    const cfg: Config
    const key: SigningKey
    var st: RefreshState

    constructor (c: Crypto, cfg: Config, key: SigningKey, st: RefreshState)
      ensures this.c == c && this.cfg == cfg && this.key == key && this.st == st
    {
      this.c, this.cfg, this.key, this.st := c, cfg, key, st;
    }

    /** freshnessRefresh: fetch, verify, vouch, upload; the floor moves after the post.
        On success `r` is what was posted. */
    method Refresh(tick: Tick) returns (r: Result<Freshness, RefreshError>, blob: Option<Blob>)
      modifies this`st
      ensures var s := Statement(c, cfg, old(st), tick);
        if s.Err? then r == s && st == old(st) && blob == None
        else if !tick.signs then r == Err(NotSigned) && st == old(st) && blob == None
        else if !tick.posted then r == Err(NotPosted) && st == old(st) && blob == None
        else
          && r == s && blob == Some(key.sign(s.value))
          && st == NextRefresh(c, cfg, old(st), tick.current.value.response, s.value)
    {
      hide RootAndRevocations, SignerOf, Opened, PolicyHash, OpenRevocations;
      blob := None;
      var window := cfg.window;
      if window < 0 || window > MAX_WINDOW {
        return Err(BadWindow), None;
      }
      if !tick.asks {
        return Err(RequestNotSigned), None;
      }
      if tick.current.None? {
        return Err(NoAnswer), None;
      }
      var cur := tick.current.value;
      var sp := cur.response;
      if sp.accountPolicy.None? || sp.accountPolicy.value.payload == "" {
        return Err(NoAccountPolicy), None;
      }
      var trust := VerifyRootAndRevocations(c, sp, cfg.rootFP, st.revocationsVersion);
      if trust.Err? {
        return Err(Refused(trust.error)), None;
      }
      if c.fingerprint(cfg.key) in trust.value.revoked {
        return Err(OwnKeyRevoked), None;
      }
      var signer := VerifySigner(c, sp, trust.value, Unix(tick.now));
      if signer.Err? {
        return Err(Refused(signer.error)), None;
      }
      var payload := Bind(Opened(c, signer.value.key, CtxAccountPolicy, sp.accountPolicy.value), c.accountPolicy);
      if payload.None? {
        return Err(Refused(BadPolicy)), None;
      }
      var ap := payload.value;
      if ap.account != cfg.account || ap.account !in signer.value.accounts || ap.group != cfg.group {
        return Err(OtherPolicy), None;
      }
      if ap.version < st.version {
        return Err(Withheld), None;
      }
      var hash := PolicyHash(c, sp.accountPolicy.value);
      if hash.None? {
        return Err(HashUnreadable), None;
      }
      if cur.policyHash != "" && cur.policyHash != hash.value {
        return Err(HashDiffers), None;
      }
      var acct := Int64(cur.windowHours * HOUR);
      if acct > 0 && acct <= MAX_WINDOW && (window == 0 || window > acct) {
        window := acct;
      } else if window == 0 {
        window := DEFAULT_WINDOW;
      }
      var f := Freshness(cfg.account, cfg.group, hash.value, ap.version, Unix(tick.now), Unix(tick.now + window));
      if f.issued <= st.issued {
        f := f.(issued := st.issued + 1);
      }
      if !tick.signs {
        return Err(NotSigned), None;
      }
      var signed := key.sign(f);
      if !tick.posted {
        return Err(NotPosted), None;
      }
      var next := st.(version := ap.version, issued := f.issued);
      if sp.revocations.Some? {
        var root := c.parseKey(sp.rootKey);
        if root.Some? {
          var list := OpenRevocations(c, root.value, sp.revocations.value);
          if list.Some? && list.value.version > st.revocationsVersion {
            next := next.(revocationsVersion := list.value.version);
          }
        }
      }
      st := next;
      return Ok(f), Some(signed);
    }
  }

  // ----- what a tick vouches for

  /** A policy to vouch for: served under the pinned root with no stale revocation list,
      signed by a device that may sign for the account, of this account and group, not
      older than the last one vouched for, and the one whose hash the server names; the
      refresher's own key is not revoked. */
  ghost predicate MayVouch(c: Crypto, cfg: Config, st: RefreshState, cur: Current, now: int, ap: AccountPolicy) {
    var sp := cur.response;
    && IsAccountFormat(sp) && cfg.rootFP != "" && c.parseKey(sp.rootKey).Some? && c.parseKey(sp.signer).Some?
    && var root := c.parseKey(sp.rootKey).value;
    && c.fingerprint(root) == cfg.rootFP
    && NotRolledBack(c, root, sp, State(cfg.rootFP, 0, st.revocationsVersion, 0, ""))
    && c.fingerprint(cfg.key) !in RevokedBy(c, root, sp)
    && MaySign(c, sp, Trust(root, RevokedBy(c, root, sp)), now, cfg.account)
    && Bind(Opened(c, c.parseKey(sp.signer).value, CtxAccountPolicy, sp.accountPolicy.value), c.accountPolicy)
      == Some(ap)
    && ap.account == cfg.account && ap.group == cfg.group && ap.version >= st.version
    && exists hash :: NamesPolicy(c, hash, sp.accountPolicy.value) && (cur.policyHash == "" || cur.policyHash == hash)
  }

  /** A tick signs a statement exactly when it is given a policy that it may vouch for. */
  lemma VouchesIff(c: Crypto, cfg: Config, st: RefreshState, tick: Tick)
    ensures Statement(c, cfg, st, tick).Ok? <==>
      0 <= cfg.window <= MAX_WINDOW && tick.asks && tick.current.Some?
      && exists ap :: MayVouch(c, cfg, st, tick.current.value, Unix(tick.now), ap)
  {
    hide SignerOf, RootAndRevocations, NotRolledBack, MaySign, Opened, RevokedBy, PolicyHash, NamesPolicy,
      ChosenWindow, Unix;
    if tick.current.Some? && IsAccountFormat(tick.current.value.response) {
      var sp, floor := tick.current.value.response, State(cfg.rootFP, 0, st.revocationsVersion, 0, "");
      if cfg.rootFP != "" && c.parseKey(sp.rootKey).Some? && c.fingerprint(c.parseKey(sp.rootKey).value) == cfg.rootFP {
        var root := c.parseKey(sp.rootKey).value;
        var trust := Trust(root, RevokedBy(c, root, sp));
        TrustedRoot(c, sp, cfg.rootFP, floor, root);
        MaySignIff(c, sp, trust, Unix(tick.now), cfg.account);
        if SignerOf(c, sp, trust, Unix(tick.now)).Ok? {
          var key := SignerOf(c, sp, trust, Unix(tick.now)).value.key;
          var ap := Bind(Opened(c, key, CtxAccountPolicy, sp.accountPolicy.value), c.accountPolicy);
          forall hash
            ensures PolicyHash(c, sp.accountPolicy.value) == Some(hash) <==>
              NamesPolicy(c, hash, sp.accountPolicy.value)
          {
            NamesPolicyIff(c, hash, sp.accountPolicy.value);
          }
          if ap.Some? {
            assert Statement(c, cfg, st, tick).Ok? ==>
              MayVouch(c, cfg, st, tick.current.value, Unix(tick.now), ap.value);
          }
        }
      } else {
        RootRefused(c, sp, cfg.rootFP, st.revocationsVersion);
      }
    }
  }

  /** What each refusal of a tick means. */
  ghost predicate TickReason(c: Crypto, cfg: Config, st: RefreshState, tick: Tick, e: RefreshError) {
    match e
    case BadWindow => cfg.window < 0 || cfg.window > 604_800_000_000_000
    case RequestNotSigned => !tick.asks
    case NoAnswer => tick.current == None
    case NotSigned => false
    case NotPosted => false
    case _ => tick.current.Some? && AnswerReason(c, cfg, st, tick.current.value, Unix(tick.now), e)
  }

  /** Those that lie in what the server answered. */
  ghost predicate AnswerReason(c: Crypto, cfg: Config, st: RefreshState, cur: Current, now: int, e: RefreshError) {
    var sp := cur.response;
    match e
    case NoAccountPolicy => !IsAccountFormat(sp)
    case OwnKeyRevoked => c.fingerprint(cfg.key) in RevokedBy(c, RootOf(c, sp), sp)
    case OtherPolicy => exists ap ::
      && OffersAccount(c, sp, ap)
      && (ap.account != cfg.account || ap.group != cfg.group || !SignerHolds(c, sp, ap.account, now))
    case Withheld => exists ap :: OffersAccount(c, sp, ap) && ap.version < st.version
    case HashUnreadable => sp.accountPolicy.Some? && Decode(sp.accountPolicy.value.payload) == None
    case HashDiffers =>
      cur.policyHash != "" && sp.accountPolicy.Some? && !NamesPolicy(c, cur.policyHash, sp.accountPolicy.value)
    case Refused(why) =>
      && 0 < Rank(sp, why) < 12
      && Because(c, sp, cfg.rootFP, "", State("", 0, st.revocationsVersion, 0, ""), now, why)
    case _ => false
  }

  /** The order of a tick's checks. */
  function TickRank(tick: Tick, e: RefreshError): nat {
    match e
    case BadWindow => 0
    case RequestNotSigned => 1
    case NoAnswer => 2
    case NoAccountPolicy => 3
    case OwnKeyRevoked => 20
    case OtherPolicy => 40
    case Withheld => 41
    case HashUnreadable => 42
    case HashDiffers => 43
    case Refused(why) =>
      if tick.current.None? then 50
      else var n := Rank(tick.current.value.response, why); if n < 7 then 10 + n else 20 + n
    case _ => 50
  }

  /** The reasons found before the policy itself is opened. */
  lemma BeforeThePolicy(c: Crypto, cfg: Config, st: RefreshState, tick: Tick, e: RefreshError)
    requires tick.current.Some? && IsAccountFormat(tick.current.value.response)
    ensures var sp := tick.current.value.response;
      var r := RootAndRevocations(c, sp, cfg.rootFP, st.revocationsVersion);
      && (r.Err? ==> TickReason(c, cfg, st, tick, Refused(r.error)) && 10 < TickRank(tick, Refused(r.error)) < 17)
      && (10 <= TickRank(tick, e) < (if r.Err? then TickRank(tick, Refused(r.error)) else 20) ==>
            !TickReason(c, cfg, st, tick, e))
      && (r.Ok? ==>
            var s := SignerOf(c, sp, r.value, Unix(tick.now));
            && (s.Err? ==>
                  TickReason(c, cfg, st, tick, Refused(s.error)) && 27 <= TickRank(tick, Refused(s.error)) < 31)
            && (20 < TickRank(tick, e) < (if s.Err? then TickRank(tick, Refused(s.error)) else 31) ==>
                  !TickReason(c, cfg, st, tick, e)))
  {
    hide SignerOf, RootAndRevocations, Because, Unix, RevokedBy, NamesPolicy, SignerHolds;
    var sp, floor := tick.current.value.response, State("", 0, st.revocationsVersion, 0, "");
    var why := if e.Refused? then e.e else FormatDowngrade;
    RootBecause(c, sp, cfg.rootFP, "", floor, Unix(tick.now), why);
    RootRefusals(c, sp, cfg.rootFP, st.revocationsVersion);
    if RootAndRevocations(c, sp, cfg.rootFP, st.revocationsVersion).Ok? {
      var trust := RootAndRevocations(c, sp, cfg.rootFP, st.revocationsVersion).value;
      TrustIsPinned(c, sp, cfg.rootFP, st.revocationsVersion);
      SignerBecause(c, sp, cfg.rootFP, trust, "", floor, Unix(tick.now), why);
    }
  }

  lemma RootRefusals(c: Crypto, sp: Response, rootFP: string, floor: int)
    ensures RootAndRevocations(c, sp, rootFP, floor).Err? ==>
      0 < Rank(sp, RootAndRevocations(c, sp, rootFP, floor).error) < 7
  {
    hide OpenRevocations;
  }

  /** And those found in the policy. */
  lemma InThePolicy(c: Crypto, cfg: Config, st: RefreshState, tick: Tick, trust: Trust, e: RefreshError)
    requires 0 <= cfg.window <= MAX_WINDOW && tick.asks
    requires tick.current.Some? && IsAccountFormat(tick.current.value.response)
    requires var sp := tick.current.value.response;
      && RootAndRevocations(c, sp, cfg.rootFP, st.revocationsVersion) == Ok(trust)
      && c.fingerprint(cfg.key) !in trust.revoked && SignerOf(c, sp, trust, Unix(tick.now)).Ok?
    ensures var r := Statement(c, cfg, st, tick);
      && (r.Err? ==> TickReason(c, cfg, st, tick, r.error) && 31 <= TickRank(tick, r.error) < 50)
      && (31 <= TickRank(tick, e) && (r.Err? ==> TickRank(tick, e) < TickRank(tick, r.error)) ==>
            !TickReason(c, cfg, st, tick, e))
  {
    hide SignerOf, RootAndRevocations, Opened, RevokedBy, Decode, Message, NamesPolicy, SignerHolds, ChosenWindow, Unix,
      ChainOpens, OffersMachine, ExpiresAsSigned, ListOf, OffersUnreadableCA;
    var sp := tick.current.value.response;
    TrustIsPinned(c, sp, cfg.rootFP, st.revocationsVersion);
    var key := SignerOf(c, sp, trust, Unix(tick.now)).value.key;
    MaySignIff(c, sp, trust, Unix(tick.now), "");
    OffersOneFormat(c, sp);
    var ap := Bind(Opened(c, key, CtxAccountPolicy, sp.accountPolicy.value), c.accountPolicy);
    if ap.Some? {
      assert OffersAccount(c, sp, ap.value);
      assert Offered(c, sp, ap.value.account, ap.value.version);
      HeldIffListed(c, sp, trust, Unix(tick.now), ap.value.account);
      NamesPolicyIff(c, tick.current.value.policyHash, sp.accountPolicy.value);
    }
  }

  /** The refusal of a tick, or its statement, and no other reason before it. */
  lemma TickBecause(c: Crypto, cfg: Config, st: RefreshState, tick: Tick, e: RefreshError)
    ensures var r := Statement(c, cfg, st, tick);
      && (r.Err? ==> TickReason(c, cfg, st, tick, r.error) && TickRank(tick, r.error) < 50)
      && ((r.Err? ==> TickRank(tick, e) < TickRank(tick, r.error)) ==> !TickReason(c, cfg, st, tick, e))
  {
    hide SignerOf, RootAndRevocations, Opened, RevokedBy, PolicyHash, NamesPolicy, SignerHolds, ChosenWindow, Unix,
      OffersAccount, Because;
    if 0 <= cfg.window <= MAX_WINDOW && tick.asks && tick.current.Some?
      && IsAccountFormat(tick.current.value.response) {
      var sp := tick.current.value.response;
      BeforeThePolicy(c, cfg, st, tick, e);
      if RootAndRevocations(c, sp, cfg.rootFP, st.revocationsVersion).Ok? {
        var trust := RootAndRevocations(c, sp, cfg.rootFP, st.revocationsVersion).value;
        TrustIsPinned(c, sp, cfg.rootFP, st.revocationsVersion);
        if c.fingerprint(cfg.key) !in trust.revoked && SignerOf(c, sp, trust, Unix(tick.now)).Ok? {
          InThePolicy(c, cfg, st, tick, trust, e);
        }
      }
    }
  }

  /** A tick signs nothing and says why exactly when that reason holds and none that is
      checked before does. */
  lemma TickRefusedIff(c: Crypto, cfg: Config, st: RefreshState, tick: Tick, e: RefreshError)
    ensures Statement(c, cfg, st, tick) == Err(e) <==>
      && TickReason(c, cfg, st, tick, e)
      && forall other :: TickRank(tick, other) < TickRank(tick, e) ==> !TickReason(c, cfg, st, tick, other)
  {
    hide Statement, TickReason;
    var r := Statement(c, cfg, st, tick);
    forall other
      ensures r.Err? ==> TickReason(c, cfg, st, tick, r.error) && TickRank(tick, r.error) < 50
      ensures (r.Err? ==> TickRank(tick, other) < TickRank(tick, r.error)) ==> !TickReason(c, cfg, st, tick, other)
    {
      TickBecause(c, cfg, st, tick, other);
    }
    if TickReason(c, cfg, st, tick, e) {
      ReasonHasRank(c, cfg, st, tick, e);
    }
  }

  lemma ReasonHasRank(c: Crypto, cfg: Config, st: RefreshState, tick: Tick, e: RefreshError)
    requires TickReason(c, cfg, st, tick, e)
    ensures TickRank(tick, e) < 50
    ensures e.Refused? ==> tick.current.Some? && 0 < Rank(tick.current.value.response, e.e) < 12
  {
    hide Because, NamesPolicy, SignerHolds, OffersAccount, RevokedBy, Unix;
  }

  lemma HeldIffListed(c: Crypto, sp: Response, trust: Trust, now: int, account: string)
    requires SignerOf(c, sp, trust, now).Ok? && c.parseKey(sp.rootKey) == Some(trust.root)
    ensures account in SignerOf(c, sp, trust, now).value.accounts <==> SignerHolds(c, sp, account, now)
  {
    hide SignerOf, HoldsDelegation, ChainOpens;
    MaySignIff(c, sp, trust, now, account);
  }

  // ----- runs

  /** A successfully posted statement: when, with which window, for which response. */
  datatype Post = Post(f: Freshness, at: int, window: int, windowHours: int, response: Response)

  /** The floor and the posts after a run of ticks. */
  function Run(c: Crypto, cfg: Config, start: RefreshState, ticks: seq<Tick>): (RefreshState, seq<Post>) {
    if ticks == [] then (start, [])
    else
      var n := |ticks| - 1;
      var (st, posts) := Run(c, cfg, start, ticks[..n]);
      match Statement(c, cfg, st, ticks[n])
      case Err(_) => (st, posts)
      case Ok(f) =>
        if !ticks[n].signs || !ticks[n].posted then (st, posts)
        else
          var cur := ticks[n].current.value;
          (NextRefresh(c, cfg, st, cur.response, f),
           posts + [Post(f, ticks[n].now, ChosenWindow(cfg.window, cur.windowHours), cur.windowHours, cur.response)])
  }

  /** Truncating to seconds spans at most a whole-second bound of the difference. */
  lemma UnixSpan(t: int, w: int, seconds: int)
    requires w <= seconds * SECOND
    ensures Unix(t + w) - Unix(t) <= seconds
  {
    assert Unix(t + seconds * SECOND) == Unix(t) + seconds;
  }

  lemma ChosenWindowBounds(window: int, windowHours: int)
    requires 0 <= window <= MAX_WINDOW
    ensures 0 < ChosenWindow(window, windowHours) <= MAX_WINDOW
    ensures 1 <= windowHours <= 168 ==> ChosenWindow(window, windowHours) <= windowHours * HOUR
    ensures window > 0 ==> ChosenWindow(window, windowHours) <= window
  {
    if 1 <= windowHours <= 168 {
      assert Int64(windowHours * HOUR) == windowHours * HOUR;
    }
  }

  /** What one statement says, whenever it is signed. */
  lemma StatementShape(c: Crypto, cfg: Config, st: RefreshState, tick: Tick)
    requires Statement(c, cfg, st, tick).Ok?
    ensures tick.current.Some?
    ensures var f, cur := Statement(c, cfg, st, tick).value, tick.current.value;
      && f.issued > st.issued && f.issued >= Unix(tick.now) && f.version >= st.version
      && (Unix(tick.now) > st.issued ==> f.issued == Unix(tick.now))
      && f.expires == Unix(tick.now + ChosenWindow(cfg.window, cur.windowHours))
      && f.expires - f.issued <= MAX_FRESHNESS_WINDOW
      && (1 <= cur.windowHours <= 168 ==> f.expires - f.issued <= cur.windowHours * 3600)
  {
    hide RootAndRevocations, SignerOf, Opened, PolicyHash, ChosenWindow;
    var hours := tick.current.value.windowHours;
    var w := ChosenWindow(cfg.window, hours);
    ChosenWindowBounds(cfg.window, hours);
    UnixSpan(tick.now, w, MAX_FRESHNESS_WINDOW);
    if 1 <= hours <= 168 {
      UnixSpan(tick.now, w, hours * 3600);
    }
  }

  /** What is left of hours of nanoseconds in an int64. */
  ghost predicate Leaves(hours: int, acct: int) {
    -0x8000_0000_0000_0000 <= acct < 0x8000_0000_0000_0000
    && exists turns: int :: hours * 3_600_000_000_000 == acct + turns * 0x1_0000_0000_0000_0000
  }

  /** When a statement expires, in terms of the flag and the account's hours alone: after
      the account's hours if these are valid and the flag does not ask for less, otherwise
      after the flag, otherwise after 36 hours. Hours too many for an int64 of nanoseconds
      count as what is left of them. */
  ghost predicate ExpiresExactly(flag: int, hours: int, at: int, expires: int) {
    && (1 <= hours <= 168 && (flag == 0 || flag > hours * 3_600_000_000_000) ==>
          expires == (at + hours * 3_600_000_000_000) / 1_000_000_000)
    && (1 <= hours <= 168 && 0 < flag <= hours * 3_600_000_000_000 ==> expires == (at + flag) / 1_000_000_000)
    && (-2_562_047 <= hours <= 0 || 168 < hours <= 2_562_047 ==>
          expires == (at + if flag == 0 then 129_600_000_000_000 else flag) / 1_000_000_000)
    && (forall acct :: Leaves(hours, acct) ==>
          var window := if 0 < acct <= 604_800_000_000_000 && (flag == 0 || acct < flag) then acct
            else if flag == 0 then 129_600_000_000_000 else flag;
          expires == (at + window) / 1_000_000_000)
  }

  lemma WindowExact(flag: int, hours: int, acct: int)
    requires Leaves(hours, acct)
    ensures ChosenWindow(flag, hours) ==
      if 0 < acct <= 604_800_000_000_000 && (flag == 0 || acct < flag) then acct
      else if flag == 0 then 129_600_000_000_000 else flag
  {
    var turns: int :| hours * 3_600_000_000_000 == acct + turns * 0x1_0000_0000_0000_0000;
    Turns(acct, turns);
  }

  lemma Turns(acct: int, turns: int)
    requires -0x8000_0000_0000_0000 <= acct < 0x8000_0000_0000_0000
    ensures Int64(acct + turns * 0x1_0000_0000_0000_0000) == acct
  {
    var n := acct + 0x8000_0000_0000_0000;
    assert (n + turns * 0x1_0000_0000_0000_0000) % 0x1_0000_0000_0000_0000 == n;
  }

  lemma StatementExpiresExactly(c: Crypto, cfg: Config, st: RefreshState, tick: Tick)
    requires Statement(c, cfg, st, tick).Ok?
    ensures tick.current.Some?
    ensures ExpiresExactly(cfg.window, tick.current.value.windowHours, tick.now,
      Statement(c, cfg, st, tick).value.expires)
  {
    hide Statement, ChosenWindow;
    StatementShape(c, cfg, st, tick);
    var hours := tick.current.value.windowHours;
    if -2_562_047 <= hours <= 2_562_047 {
      assert hours * 3_600_000_000_000 == hours * 3_600_000_000_000 + 0 * 0x1_0000_0000_0000_0000;
      assert Leaves(hours, hours * 3_600_000_000_000);
    }
    hide Leaves;
    forall acct | Leaves(hours, acct)
      ensures ChosenWindow(cfg.window, hours) ==
        if 0 < acct <= 604_800_000_000_000 && (cfg.window == 0 || acct < cfg.window) then acct
        else if cfg.window == 0 then 129_600_000_000_000 else cfg.window
    {
      WindowExact(cfg.window, hours, acct);
    }
    WindowIsValid(c, cfg, st, tick);
  }

  /** A statement is for this account and group, names the policy served by its hash and
      has its version. */
  lemma StatementIsOfPolicy(c: Crypto, cfg: Config, st: RefreshState, tick: Tick)
    requires Statement(c, cfg, st, tick).Ok?
    ensures tick.current.Some?
    ensures var (f, cur) := (Statement(c, cfg, st, tick).value, tick.current.value);
      && f.account == cfg.account && f.group == cfg.group
      && IsAccountFormat(cur.response) && NamesPolicy(c, f.policyHash, cur.response.accountPolicy.value)
      && exists ap :: MayVouch(c, cfg, st, cur, Unix(tick.now), ap) && f.version == ap.version
  {
    hide MayVouch, RootAndRevocations, SignerOf, Opened, PolicyHash, ChosenWindow, NamesPolicy;
    VouchesIff(c, cfg, st, tick);
    var sp := tick.current.value.response;
    NamesPolicyIff(c, Statement(c, cfg, st, tick).value.policyHash, sp.accountPolicy.value);
    var ap :| MayVouch(c, cfg, st, tick.current.value, Unix(tick.now), ap);
    VouchedIsOpened(c, cfg, st, tick.current.value, Unix(tick.now), ap);
    StatementSigner(c, cfg, st, tick);
  }

  lemma VouchedIsOpened(c: Crypto, cfg: Config, st: RefreshState, cur: Current, now: int, ap: AccountPolicy)
    requires MayVouch(c, cfg, st, cur, now, ap)
    ensures IsAccountFormat(cur.response) && c.parseKey(cur.response.signer).Some?
    ensures Bind(Opened(c, c.parseKey(cur.response.signer).value, CtxAccountPolicy, cur.response.accountPolicy.value),
      c.accountPolicy) == Some(ap)
  {
    hide Opened, MaySign, NotRolledBack, RevokedBy, NamesPolicy;
  }

  lemma StatementSigner(c: Crypto, cfg: Config, st: RefreshState, tick: Tick)
    requires Statement(c, cfg, st, tick).Ok?
    ensures tick.current.Some? && IsAccountFormat(tick.current.value.response)
    ensures var sp := tick.current.value.response;
      && c.parseKey(sp.signer).Some?
      && var ap := Bind(Opened(c, c.parseKey(sp.signer).value, CtxAccountPolicy, sp.accountPolicy.value),
        c.accountPolicy);
      ap.Some? && Statement(c, cfg, st, tick).value.version == ap.value.version
  {
    hide RootAndRevocations, LiveAccounts, Opened, PolicyHash, ChosenWindow;
  }

  /** The statement a tick signs extends no response that holds other policy bytes, shown to
      any agent at any time. */
  lemma StatementExtendsOnlyItsPolicy(c: Crypto, cfg: Config, k: SigningKey, st: RefreshState, tick: Tick,
      served: Response, trust: Trust, ap: AccountPolicy, now: int)
    requires Sound(c) && Signs(c, cfg.key, k) && Statement(c, cfg, st, tick).Ok?
    requires served.accountPolicy.Some? && served.freshness == Some(k.sign(Statement(c, cfg, st, tick).value))
    requires FreshnessExpiry(c, served, trust, ap, now).Some?
    ensures tick.current.Some? && tick.current.value.response.accountPolicy.Some?
    ensures Decode(served.accountPolicy.value.payload).Some?
    ensures Decode(served.accountPolicy.value.payload)
      == Decode(tick.current.value.response.accountPolicy.value.payload)
  {
    hide Opened, Statement, FreshnessExpiry, FreshnessChainOpens, HoldsFreshness, NamesPolicy, Sound, Decode, MayVouch;
    var f := Statement(c, cfg, st, tick).value;
    StatementIsOfPolicy(c, cfg, st, tick);
    GrantedIffVouched(c, served, trust, ap, now, FreshnessExpiry(c, served, trust, ap, now).value);
    var f' :| Vouches(c, served, trust, ap, now, f', FreshnessExpiry(c, served, trust, ap, now).value);
    var key' := c.parseKey(served.freshnessSigner).value;
    NoCrossUse(c, cfg.key, CtxFreshness, k.sign(f), key', CtxFreshness, served.freshness.value);
    assert f' == f;
    OneHashOnePolicy(c, f.policyHash, served.accountPolicy.value, tick.current.value.response.accountPolicy.value);
  }

  /** The floor never falls below what was posted. */
  lemma {:induction false} FloorCoversPosts(c: Crypto, cfg: Config, start: RefreshState, ticks: seq<Tick>)
    ensures var (st, posts) := Run(c, cfg, start, ticks);
      && st.issued >= start.issued && st.version >= start.version && st.revocationsVersion >= start.revocationsVersion
      && forall k :: 0 <= k < |posts| ==> posts[k].f.issued <= st.issued && posts[k].f.version <= st.version
    decreases |ticks|
  {
    hide Statement, ChosenWindow;
    if ticks != [] {
      var n := |ticks| - 1;
      FloorCoversPosts(c, cfg, start, ticks[..n]);
      var st := Run(c, cfg, start, ticks[..n]).0;
      if Statement(c, cfg, st, ticks[n]).Ok? {
        StatementShape(c, cfg, st, ticks[n]);
      }
    }
  }

  /** Over every run, posted statements have increasing issue times, versions that do not
      fall, and validities within seven days and within any valid account window. */
  lemma {:induction false} PostsAreOrdered(c: Crypto, cfg: Config, start: RefreshState, ticks: seq<Tick>)
    ensures var posts := Run(c, cfg, start, ticks).1;
      && (forall i, j :: 0 <= i < j < |posts| ==>
            posts[i].f.issued < posts[j].f.issued && posts[i].f.version <= posts[j].f.version)
      && (forall k :: 0 <= k < |posts| ==> posts[k].f.expires - posts[k].f.issued <= MAX_FRESHNESS_WINDOW)
      && (forall k :: 0 <= k < |posts| && 1 <= posts[k].windowHours <= 168 ==>
            posts[k].f.expires - posts[k].f.issued <= posts[k].windowHours * 3600)
    decreases |ticks|
  {
    hide Statement, ChosenWindow, NextRefresh;
    if ticks != [] {
      var n := |ticks| - 1;
      PostsAreOrdered(c, cfg, start, ticks[..n]);
      FloorCoversPosts(c, cfg, start, ticks[..n]);
      var st := Run(c, cfg, start, ticks[..n]).0;
      if Statement(c, cfg, st, ticks[n]).Ok? {
        StatementShape(c, cfg, st, ticks[n]);
      }
    }
  }

  /** The version of the revocation list that a response carries, if it opens under the
      response's root. */
  function ListVersion(c: Crypto, sp: Response): Option<int> {
    match (c.parseKey(sp.rootKey), sp.revocations)
    case (Some(root), Some(b)) =>
      (match OpenRevocations(c, root, b) case Some(r) => Some(r.version) case None => None)
    case _ => None
  }

  /** A response that is vouched for has a list that opens and meets the floor, or none
      and no positive floor. */
  lemma VouchedList(c: Crypto, cfg: Config, st: RefreshState, tick: Tick)
    requires Statement(c, cfg, st, tick).Ok?
    ensures tick.current.Some?
    ensures var sp := tick.current.value.response;
      if sp.revocations.Some? then ListVersion(c, sp).Some? && ListVersion(c, sp).value >= st.revocationsVersion
      else st.revocationsVersion <= 0
  {
    hide SignerOf, Opened, PolicyHash, ChosenWindow, OpenRevocations;
  }

  /** Over every run, what is posted never goes back in revocations: list versions do not
      fall, each list opens, and after a positive version no posted response lacks one;
      nor does the floor fall below any of them. */
  lemma {:induction false} PostedListsAreOrdered(c: Crypto, cfg: Config, start: RefreshState, ticks: seq<Tick>)
    ensures var (st, posts) := Run(c, cfg, start, ticks);
      && (forall k :: 0 <= k < |posts| && posts[k].response.revocations.Some? ==>
            && ListVersion(c, posts[k].response).Some?
            && start.revocationsVersion <= ListVersion(c, posts[k].response).value <= st.revocationsVersion)
      && (forall i, j :: 0 <= i < j < |posts| && posts[i].response.revocations.Some? ==>
            if posts[j].response.revocations.Some?
            then ListVersion(c, posts[i].response).value <= ListVersion(c, posts[j].response).value
            else ListVersion(c, posts[i].response).value <= 0)
    decreases |ticks|
  {
    hide Statement, ChosenWindow, OpenRevocations;
    if ticks != [] {
      var n := |ticks| - 1;
      PostedListsAreOrdered(c, cfg, start, ticks[..n]);
      FloorCoversPosts(c, cfg, start, ticks[..n]);
      var st := Run(c, cfg, start, ticks[..n]).0;
      if Statement(c, cfg, st, ticks[n]).Ok? {
        VouchedList(c, cfg, st, ticks[n]);
      }
    }
  }

  // ----- agents stay live

  /** Ticks at least a second apart, the first after the saved issue time. */
  ghost predicate Spaced(start: RefreshState, ticks: seq<Tick>) {
    && (forall i :: 0 <= i < |ticks| ==> start.issued < Unix(ticks[i].now))
    && (forall i, j :: 0 <= i < j < |ticks| ==> ticks[i].now + SECOND <= ticks[j].now)
  }

  /** Then issue times are never pushed forward, and posts are in time order. */
  lemma {:induction false} IssuedExactly(c: Crypto, cfg: Config, start: RefreshState, ticks: seq<Tick>)
    requires Spaced(start, ticks)
    ensures var (st, posts) := Run(c, cfg, start, ticks);
      && (forall k :: 0 <= k < |posts| ==> posts[k].f.issued == Unix(posts[k].at))
      && (forall k :: 0 <= k < |posts| ==> posts[k].f.expires == Unix(posts[k].at + posts[k].window))
      && (st.issued == start.issued || exists i :: 0 <= i < |ticks| && st.issued == Unix(ticks[i].now))
    decreases |ticks|
  {
    hide Statement, ChosenWindow;
    if ticks != [] {
      var n := |ticks| - 1;
      IssuedExactly(c, cfg, start, ticks[..n]);
      var st := Run(c, cfg, start, ticks[..n]).0;
      if st.issued != start.issued {
        var i :| 0 <= i < n && st.issued == Unix(ticks[..n][i].now);
        assert ticks[i].now + SECOND <= ticks[n].now;
      }
      assert st.issued < Unix(ticks[n].now);
      if Statement(c, cfg, st, ticks[n]).Ok? {
        StatementShape(c, cfg, st, ticks[n]);
      }
    }
  }

  /** An agent that would accept the response but for its expiry: same root, floors met,
      signer delegated and not revoked, its own entry present with readable CA keys, and
      the freshness key delegated for the account and not revoked. */
  ghost predicate InOrder(c: Crypto, cfg: Config, served: Response, machine: string, agent: State, now: int,
      ap: AccountPolicy) {
    && IsAccountFormat(served)
    && c.parseKey(served.freshnessSigner) == Some(cfg.key)
    && RootAndRevocations(c, served, cfg.rootFP, agent.revocationsVersion).Ok?
    && var trust := RootAndRevocations(c, served, cfg.rootFP, agent.revocationsVersion).value;
    && CheckContent(c, served, trust, machine, agent.version, now) == Ok(ap)
    && c.fingerprint(cfg.key) !in trust.revoked
    && FreshnessDelegated(c, trust.root, served.freshnessChain, c.fingerprint(cfg.key), ap.account, now) == Some(true)
  }

  /** The posted statement names exactly the policy that the agent opens. */
  lemma StatementNamesPolicy(c: Crypto, cfg: Config, st: RefreshState, tick: Tick, served: Response, trust: Trust,
      machine: string, floor: int, now: int)
    requires Statement(c, cfg, st, tick).Ok? && SameButFreshness(tick.current.value.response, served)
    requires IsAccountFormat(served) && CheckContent(c, served, trust, machine, floor, now).Ok?
    ensures var f, ap := Statement(c, cfg, st, tick).value, CheckContent(c, served, trust, machine, floor, now).value;
      && f.account == ap.account && f.group == ap.group && f.version == ap.version
      && PolicyHash(c, served.accountPolicy.value) == Some(f.policyHash)
      && machine in ap.machines
  {
    hide RootAndRevocations, LiveAccounts, Opened, PolicyHash, ChosenWindow, CAKeysParse;
  }

  /** The verdict of such an agent on the response with a posted statement attached: while
      the statement is neither from the future nor expired it accepts with the later of the
      two expiries; otherwise only the device-signed expiry counts. The seven-day cap plays
      no part. */
  lemma AgentVerdict(c: Crypto, cfg: Config, k: SigningKey, st: RefreshState, tick: Tick, served: Response,
      machine: string, agent: State, now: int, ap: AccountPolicy)
    requires Signs(c, cfg.key, k) && Statement(c, cfg, st, tick).Ok?
    requires SameButFreshness(tick.current.value.response, served)
    requires served.freshness == Some(k.sign(Statement(c, cfg, st, tick).value))
    requires InOrder(c, cfg, served, machine, agent, now, ap)
    ensures var f := Statement(c, cfg, st, tick).value;
      var counts := f.issued <= now + MAX_FRESHNESS_CLOCK_SKEW && now < f.expires;
      var expires := if counts && f.expires > ap.expires then f.expires else ap.expires;
      var verdict := VerifyAny(c, served, cfg.rootFP, machine, agent, now);
      if expires == 0 || now >= expires
      then verdict.Err? && verdict.error.Stale? && IsEntry(ap, machine, verdict.error.p)
      else verdict.Ok? && IsEntry(ap, machine, verdict.value) && verdict.value.krlExpires == expires
  {
    hide RootAndRevocations, Statement, CheckContent, Opened, FreshnessDelegated, PolicyHash, ChosenWindow;
    var trust := RootAndRevocations(c, served, cfg.rootFP, agent.revocationsVersion).value;
    StatementNamesPolicy(c, cfg, st, tick, served, trust, machine, agent.version, now);
    StatementShape(c, cfg, st, tick);
  }

  lemma {:induction false} PostIsStatement(c: Crypto, cfg: Config, start: RefreshState, ticks: seq<Tick>, k: nat)
      returns (st: RefreshState, tick: Tick)
    requires k < |Run(c, cfg, start, ticks).1|
    ensures Statement(c, cfg, st, tick) == Ok(Run(c, cfg, start, ticks).1[k].f)
    ensures tick.current.Some? && tick.current.value.response == Run(c, cfg, start, ticks).1[k].response
    ensures tick.now == Run(c, cfg, start, ticks).1[k].at
    ensures tick.current.value.windowHours == Run(c, cfg, start, ticks).1[k].windowHours
    decreases |ticks|
  {
    hide Statement, ChosenWindow, NextRefresh;
    var n := |ticks| - 1;
    var before := Run(c, cfg, start, ticks[..n]);
    if k < |before.1| {
      st, tick := PostIsStatement(c, cfg, start, ticks[..n], k);
    } else {
      st, tick := before.0, ticks[n];
      StatementShape(c, cfg, st, tick);
    }
  }

  /** Over every run each post expires exactly when flag and account hours say. */
  lemma PostsExpireExactly(c: Crypto, cfg: Config, start: RefreshState, ticks: seq<Tick>, k: nat)
    requires k < |Run(c, cfg, start, ticks).1|
    ensures var post := Run(c, cfg, start, ticks).1[k];
      ExpiresExactly(cfg.window, post.windowHours, post.at, post.f.expires)
  {
    hide Run, Statement, ExpiresExactly;
    var st, tick := PostIsStatement(c, cfg, start, ticks, k);
    StatementExpiresExactly(c, cfg, st, tick);
  }

  /** The floor is exactly that of the last post: its version and issue time, and the list
      version of some post, or the floor at the start. */
  lemma {:induction false} FloorIsLastPost(c: Crypto, cfg: Config, start: RefreshState, ticks: seq<Tick>)
    ensures var (st, posts) := Run(c, cfg, start, ticks);
      && (posts == [] ==> st == start)
      && (posts != [] ==> st.version == posts[|posts| - 1].f.version && st.issued == posts[|posts| - 1].f.issued)
      && (st.revocationsVersion == start.revocationsVersion
          || exists k :: 0 <= k < |posts| && ListVersion(c, posts[k].response) == Some(st.revocationsVersion))
    decreases |ticks|
  {
    hide Statement, ChosenWindow, OpenRevocations;
    if ticks != [] {
      var n := |ticks| - 1;
      FloorIsLastPost(c, cfg, start, ticks[..n]);
      var (before, after) := (Run(c, cfg, start, ticks[..n]), Run(c, cfg, start, ticks));
      if |after.1| > |before.1| && after.0.revocationsVersion != before.0.revocationsVersion {
        assert ListVersion(c, after.1[|before.1|].response) == Some(after.0.revocationsVersion);
      } else if before.0.revocationsVersion != start.revocationsVersion {
        var k :| 0 <= k < |before.1| && ListVersion(c, before.1[k].response) == Some(before.0.revocationsVersion);
        assert after.1[k] == before.1[k];
      }
    }
  }

  /** Over any run of ticks a second or more apart, at any instant from a post on, an agent
      in order that is served the post accepts it exactly while the second of the instant
      comes before the later of two: the device's expiry and the second in which the window
      ends. In the window the expiry it sees is exactly the later of the two. */
  lemma AgentsStayLive(c: Crypto, cfg: Config, key: SigningKey, start: RefreshState, ticks: seq<Tick>, k: nat, a: int,
      served: Response, machine: string, agent: State, ap: AccountPolicy)
    requires Signs(c, cfg.key, key) && Spaced(start, ticks) && 0 <= a
    requires k < |Run(c, cfg, start, ticks).1| && Run(c, cfg, start, ticks).1[k].at <= a
    requires SameButFreshness(Run(c, cfg, start, ticks).1[k].response, served)
    requires served.freshness == Some(key.sign(Run(c, cfg, start, ticks).1[k].f))
    requires InOrder(c, cfg, served, machine, agent, Unix(a), ap)
    ensures var post := Run(c, cfg, start, ticks).1[k];
      var verdict, ends := VerifyAny(c, served, cfg.rootFP, machine, agent, Unix(a)), Unix(post.at + post.window);
      && (verdict.Ok? <==> Unix(a) < Max(ap.expires, ends))
      && (verdict.Ok? ==> IsEntry(ap, machine, verdict.value))
      && (Unix(a) < ends ==> verdict.Ok? && verdict.value.krlExpires == Max(ap.expires, ends))
  {
    hide Run, Statement, InOrder, VerifyAny;
    IssuedExactly(c, cfg, start, ticks);
    var st, tick := PostIsStatement(c, cfg, start, ticks, k);
    var post := Run(c, cfg, start, ticks).1[k];
    UnixMonotone(post.at, a);
    AgentVerdict(c, cfg, key, st, tick, served, machine, agent, Unix(a), ap);
  }

  lemma UnixMonotone(a: int, b: int)
    requires a <= b
    ensures Unix(a) <= Unix(b)
  {
  }

  /** A later post is at a later instant. */
  lemma PostsInTime(c: Crypto, cfg: Config, start: RefreshState, ticks: seq<Tick>, k: nat)
    requires Spaced(start, ticks) && k + 1 < |Run(c, cfg, start, ticks).1|
    ensures Run(c, cfg, start, ticks).1[k].at < Run(c, cfg, start, ticks).1[k + 1].at
  {
    hide Run;
    IssuedExactly(c, cfg, start, ticks);
    PostsAreOrdered(c, cfg, start, ticks);
  }

  lemma ShortGap(end: int, next: int)
    requires next + SECOND <= end || (next % SECOND == 0 && next <= end)
    ensures Unix(next - 1) < Unix(end)
  {
  }

  /** From one post of such a run to the next, with whatever response carries the first one
      at each instant and whatever state the agent is then in, an agent in order throughout
      accepts without a break exactly when the last instant before the next post lies in a
      second before the window's end, or before the device's expiry. A gap a second below
      the window is short enough, and before a post on a whole second so is the window. */
  lemma NoBreakBetweenPosts(c: Crypto, cfg: Config, key: SigningKey, start: RefreshState, ticks: seq<Tick>, k: nat,
      served: int -> Response, machine: string, agent: int -> State, ap: AccountPolicy)
    requires Signs(c, cfg.key, key) && Spaced(start, ticks)
    requires k + 1 < |Run(c, cfg, start, ticks).1| && 0 <= Run(c, cfg, start, ticks).1[k].at
    requires var posts := Run(c, cfg, start, ticks).1;
      forall a :: posts[k].at <= a < posts[k + 1].at ==>
        && SameButFreshness(posts[k].response, served(a)) && served(a).freshness == Some(key.sign(posts[k].f))
        && InOrder(c, cfg, served(a), machine, agent(a), Unix(a), ap)
    ensures var (post, next) := (Run(c, cfg, start, ticks).1[k], Run(c, cfg, start, ticks).1[k + 1].at);
      (forall a :: post.at <= a < next ==> VerifyAny(c, served(a), cfg.rootFP, machine, agent(a), Unix(a)).Ok?) <==>
        Unix(next - 1) < Max(ap.expires, Unix(post.at + post.window))
    ensures var (post, next) := (Run(c, cfg, start, ticks).1[k], Run(c, cfg, start, ticks).1[k + 1].at);
      next + SECOND <= post.at + post.window || (next % SECOND == 0 && next <= post.at + post.window) ==>
        forall a :: post.at <= a < next ==> VerifyAny(c, served(a), cfg.rootFP, machine, agent(a), Unix(a)).Ok?
  {
    hide Run, Statement, InOrder, VerifyAny, Unix, SameButFreshness;
    PostsInTime(c, cfg, start, ticks, k);
    var post, next := Run(c, cfg, start, ticks).1[k], Run(c, cfg, start, ticks).1[k + 1].at;
    forall a | post.at <= a < next
      ensures VerifyAny(c, served(a), cfg.rootFP, machine, agent(a), Unix(a)).Ok? <==>
        Unix(a) < Max(ap.expires, Unix(post.at + post.window))
      ensures Unix(a) <= Unix(next - 1)
    {
      AgentsStayLive(c, cfg, key, start, ticks, k, a, served(a), machine, agent(a), ap);
      UnixMonotone(a, next - 1);
    }
    assert post.at <= next - 1 < next;
    var end := post.at + post.window;
    if next + SECOND <= end || (next % SECOND == 0 && next <= end) {
      ShortGap(end, next);
    }
  }

  /** With the device-signed expiry past, acceptance depends on exactly two things: that the
      statement is not from the future, and that the second of the check comes before the
      statement's expiry. */
  lemma AcceptedIffFresh(c: Crypto, cfg: Config, k: SigningKey, st: RefreshState, tick: Tick, served: Response,
      machine: string, agent: State, now: int, ap: AccountPolicy)
    requires Signs(c, cfg.key, k) && Statement(c, cfg, st, tick).Ok?
    requires SameButFreshness(tick.current.value.response, served)
    requires served.freshness == Some(k.sign(Statement(c, cfg, st, tick).value))
    requires InOrder(c, cfg, served, machine, agent, now, ap)
    requires 0 <= now && ap.expires <= now
    ensures VerifyAny(c, served, cfg.rootFP, machine, agent, now).Ok? <==>
      && Statement(c, cfg, st, tick).value.issued <= now + MAX_FRESHNESS_CLOCK_SKEW
      && now < Unix(tick.now + ChosenWindow(cfg.window, tick.current.value.windowHours))
  {
    hide Statement, InOrder, VerifyAny, ChosenWindow;
    AgentVerdict(c, cfg, k, st, tick, served, machine, agent, now, ap);
    StatementShape(c, cfg, st, tick);
  }

  /** A gap below the window is not enough by itself: seconds are truncated. At the last
      instant of a window of whole seconds an agent past the device's expiry accepts a
      statement that is not from the future exactly when the tick was on a whole second, so
      every other tick leaves an instant inside its window at which it refuses. */
  lemma WindowEndsEarly(c: Crypto, cfg: Config, k: SigningKey, st: RefreshState, tick: Tick, served: Response,
      machine: string, agent: State, ap: AccountPolicy)
    requires Signs(c, cfg.key, k) && Statement(c, cfg, st, tick).Ok?
    requires SameButFreshness(tick.current.value.response, served)
    requires served.freshness == Some(k.sign(Statement(c, cfg, st, tick).value))
    requires 0 <= tick.now && ChosenWindow(cfg.window, tick.current.value.windowHours) % SECOND == 0
    requires var last := tick.now + ChosenWindow(cfg.window, tick.current.value.windowHours) - 1;
      InOrder(c, cfg, served, machine, agent, Unix(last), ap) && ap.expires <= Unix(last)
    ensures var last := tick.now + ChosenWindow(cfg.window, tick.current.value.windowHours) - 1;
      && tick.now <= last < tick.now + ChosenWindow(cfg.window, tick.current.value.windowHours)
      && (VerifyAny(c, served, cfg.rootFP, machine, agent, Unix(last)).Ok? <==>
            tick.now % SECOND == 0
            && Statement(c, cfg, st, tick).value.issued <= Unix(last) + MAX_FRESHNESS_CLOCK_SKEW)
  {
    hide Statement, InOrder, VerifyAny, ChosenWindow;
    StatementShape(c, cfg, st, tick);
    var w := ChosenWindow(cfg.window, tick.current.value.windowHours);
    WindowIsValid(c, cfg, st, tick);
    ChosenWindowBounds(cfg.window, tick.current.value.windowHours);
    LastSecond(tick.now, w);
    AcceptedIffFresh(c, cfg, k, st, tick, served, machine, agent, Unix(tick.now + w - 1), ap);
  }

  lemma WindowIsValid(c: Crypto, cfg: Config, st: RefreshState, tick: Tick)
    requires Statement(c, cfg, st, tick).Ok?
    ensures 0 <= cfg.window <= MAX_WINDOW
  {
    hide RootAndRevocations, SignerOf, Opened, PolicyHash, ChosenWindow;
  }

  lemma LastSecond(now: int, w: int)
    requires 0 <= now && 0 < w && w % SECOND == 0
    ensures 0 <= Unix(now + w - 1) <= Unix(now + w)
    ensures Unix(now + w - 1) < Unix(now + w) <==> now % SECOND == 0
  {
    assert (now + w) % SECOND == now % SECOND;
  }
}
