/** Signed policies: the blobs, the checks an agent makes on a served response, and
    what a response that passes them must contain. Times are Unix seconds. */
module SignedPolicy {
  import opened Base64
  import opened Gf256
  import opened Prelude

  // ----- what is signed

  datatype Delegation = Delegation(account: string, deviceKey: string, issued: int, expires: int)

  datatype Revocations = Revocations(account: string, version: int, revoked: seq<string>)

  datatype Grant = Grant(principal: string, loginUser: string)

  datatype Policy = Policy(
    account: string, version: int, issued: int, krlExpires: int,
    caKeys: seq<string>, grants: seq<Grant>, krlSpec: string)

  datatype MachinePolicy = MachinePolicy(caKeys: seq<string>, grants: seq<Grant>)

  datatype AccountPolicy = AccountPolicy(
    account: string, group: string, version: int, issued: int, expires: int,
    krlSpec: string, machines: map<string, MachinePolicy>)

  datatype FreshnessDelegation = FreshnessDelegation(account: string, key: string, issued: int, expires: int)

  datatype Freshness = Freshness(
    account: string, group: string, policyHash: string, version: int, issued: int, expires: int)

  /** Base64 of the payload and of the signature. */
  datatype Blob = Blob(payload: string, sig: string)

  /** A getSignedPolicy response; every field is whatever the server sent. */
  datatype Response = Response(
    rootKey: string, chain: seq<Blob>, revocations: Option<Blob>, policy: Blob, signer: string,
    accountPolicy: Option<Blob>, freshness: Option<Blob>, freshnessSigner: string, freshnessChain: seq<Blob>)

  // ----- primitives

  datatype Key = Key(id: nat)

  /** Key parsing and fingerprints, signature verification over bytes, JSON decoding
      of each payload type, and the hash of a policy. */
  datatype Crypto = Crypto(
    parseKey: string -> Option<Key>,
    fingerprint: Key -> string,
    verify: (Key, seq<byte>, seq<byte>) -> bool,
    hash: seq<byte> -> string,
    delegation: seq<byte> -> Option<Delegation>,
    revocations: seq<byte> -> Option<Revocations>,
    revocationsWhole: seq<byte> -> Option<Revocations>,
    policy: seq<byte> -> Option<Policy>,
    accountPolicy: seq<byte> -> Option<AccountPolicy>,
    freshnessDelegation: seq<byte> -> Option<FreshnessDelegation>,
    freshness: seq<byte> -> Option<Freshness>)

  /** What is assumed: fingerprints and hashes do not collide, a signature verifies for
      one key and one message only, and the two ways of decoding a revocation list
      agree where both succeed. */
  ghost predicate Sound(c: Crypto) {
    && (forall k, k' :: c.fingerprint(k) == c.fingerprint(k') ==> k == k')
    && (forall k, m, k', m', sig :: c.verify(k, m, sig) && c.verify(k', m', sig) ==> k == k' && m == m')
    && (forall a, b :: c.hash(a) == c.hash(b) ==> a == b)
    && (forall p :: c.revocations(p).Some? && c.revocationsWhole(p).Some? ==> c.revocations(p) == c.revocationsWhole(p))
  }

  // ----- signing contexts

  datatype Context = CtxDelegation | CtxRevocations | CtxPolicy | CtxAccountPolicy | CtxFreshness
    | CtxFreshnessDelegation | CtxSecret

  function ContextName(ctx: Context): string {
    match ctx
    case CtxDelegation => "p3sig-delegation-v1"
    case CtxRevocations => "p3sig-revocations-v1"
    case CtxPolicy => "p3sig-policy-v1"
    case CtxAccountPolicy => "p3sig-account-policy-v1"
    case CtxFreshness => "p3sig-freshness-v1"
    case CtxFreshnessDelegation => "p3sig-freshness-delegation-v1"
    case CtxSecret => "p3sig-secret-v1"
  }

  function Ascii(s: string): (b: seq<byte>)
    ensures |b| == |s|
  {
    seq(|s|, i requires 0 <= i < |s| => if s[i] as int < 256 then s[i] as int else 0)
  }

  function Message(ctx: Context, payload: seq<byte>): seq<byte> {
    Ascii(ContextName(ctx) + "\n") + payload
  }

  /** The payload of a blob whose signature verifies under `key` in `ctx`. */
  function Opened(c: Crypto, key: Key, ctx: Context, b: Blob): Option<seq<byte>> {
    match (Decode(b.payload), Decode(b.sig))
    case (Some(payload), Some(sig)) => if c.verify(key, Message(ctx, payload), sig) then Some(payload) else None
    case _ => None
  }

  function Bind<A, B>(a: Option<A>, f: A -> Option<B>): Option<B> {
    match a case None => None case Some(x) => f(x)
  }

  function OpenDelegation(c: Crypto, root: Key, b: Blob): Option<Delegation> {
    Bind(Opened(c, root, CtxDelegation, b), c.delegation)
  }

  function OpenRevocations(c: Crypto, root: Key, b: Blob): Option<Revocations> {
    Bind(Opened(c, root, CtxRevocations, b), c.revocations)
  }

  function OpenFreshnessDelegation(c: Crypto, root: Key, b: Blob): Option<FreshnessDelegation> {
    Bind(Opened(c, root, CtxFreshnessDelegation, b), c.freshnessDelegation)
  }

  // ----- the agent's checks

  datatype State = State(rootFP: string, version: int, revocationsVersion: int, krlExpires: int, format: string)

  const FORMAT_ACCOUNT := "account"
  const MAX_FRESHNESS_WINDOW := 7 * 24 * 3600
  const MAX_FRESHNESS_CLOCK_SKEW := 5 * 60

  /** Why a response is refused; a stale one still carries the policy it holds. */
  datatype PolicyError =
    | NoRootPinned | BadRootKey | WrongRoot | BadRevocations | RevocationReplay | RevocationStripped
    | BadSigner | SignerRevoked | BadDelegation | NoLiveDelegation | BadPolicy | NotDelegated
    | PolicyReplay | NoMachineEntry | BadCAKey | FormatDowngrade
    | Stale(p: Policy)

  /** The pinned root and the fingerprints it has revoked. */
  datatype Trust = Trust(root: Key, revoked: set<string>)

  /** verifyRootAndRevocations on values. */
  function RootAndRevocations(c: Crypto, sp: Response, rootFP: string, floor: int): Result<Trust, PolicyError> {
    if rootFP == "" then Err(NoRootPinned)
    else
      match c.parseKey(sp.rootKey)
      case None => Err(BadRootKey)
      case Some(root) =>
        if c.fingerprint(root) != rootFP then Err(WrongRoot)
        else
          match sp.revocations
          case None => if floor > 0 then Err(RevocationStripped) else Ok(Trust(root, {}))
          case Some(b) =>
            match OpenRevocations(c, root, b)
            case None => Err(BadRevocations)
            case Some(r) =>
              if r.version < floor then Err(RevocationReplay) else Ok(Trust(root, set fp | fp in r.revoked))
  }

  /** verifyRootAndRevocations: the loop that fills the set of revoked fingerprints. */
  method VerifyRootAndRevocations(c: Crypto, sp: Response, rootFP: string, floor: int)
    returns (r: Result<Trust, PolicyError>)
    ensures r == RootAndRevocations(c, sp, rootFP, floor)
  {
    hide OpenRevocations;
    if rootFP == "" {
      return Err(NoRootPinned);
    }
    var root := c.parseKey(sp.rootKey);
    if root.None? {
      return Err(BadRootKey);
    }
    if c.fingerprint(root.value) != rootFP {
      return Err(WrongRoot);
    }
    var revoked: set<string> := {};
    if sp.revocations.Some? {
      var list := OpenRevocations(c, root.value, sp.revocations.value);
      if list.None? {
        return Err(BadRevocations);
      }
      if list.value.version < floor {
        return Err(RevocationReplay);
      }
      var fps := list.value.revoked;
      for i := 0 to |fps|
        invariant revoked == set fp | fp in fps[..i]
      {
        revoked := revoked + {fps[i]};
        assert fps[..i + 1] == fps[..i] + [fps[i]];
      }
      assert fps[..|fps|] == fps;
    } else if floor > 0 {
      return Err(RevocationStripped);
    }
    r := Ok(Trust(root.value, revoked));
  }

  /** Not expired: 0 means no expiry. */
  predicate LiveAt(expires: int, now: int) {
    expires == 0 || now < expires
  }

  predicate Delegates(c: Crypto, d: Delegation, signerFP: string, now: int) {
    && c.parseKey(d.deviceKey).Some? && c.fingerprint(c.parseKey(d.deviceKey).value) == signerFP
    && LiveAt(d.expires, now)
  }

  /** The accounts of the live delegations to `signerFP`; None when a blob does not open. */
  function ChainAccounts(c: Crypto, root: Key, chain: seq<Blob>, signerFP: string, now: int): Option<set<string>> {
    if chain == [] then Some({})
    else
      var n := |chain| - 1;
      match (ChainAccounts(c, root, chain[..n], signerFP, now), OpenDelegation(c, root, chain[n]))
      case (Some(accounts), Some(d)) =>
        Some(if Delegates(c, d, signerFP, now) then accounts + {d.account} else accounts)
      case _ => None
  }

  function LiveAccounts(c: Crypto, root: Key, chain: seq<Blob>, signerFP: string, now: int): Result<set<string>,
      PolicyError> {
    match ChainAccounts(c, root, chain, signerFP, now)
    case None => Err(BadDelegation)
    case Some(accounts) => if accounts == {} then Err(NoLiveDelegation) else Ok(accounts)
  }

  lemma {:induction false} ChainPrefix(c: Crypto, root: Key, chain: seq<Blob>, signerFP: string, now: int, k: nat)
    requires k <= |chain| && ChainAccounts(c, root, chain[..k], signerFP, now).None?
    ensures ChainAccounts(c, root, chain, signerFP, now).None?
    decreases |chain|
  {
    hide OpenDelegation, Delegates;
    if k < |chain| {
      assert chain[..|chain| - 1][..k] == chain[..k];
      ChainPrefix(c, root, chain[..|chain| - 1], signerFP, now, k);
    } else {
      assert chain[..k] == chain;
    }
  }

  /** liveDelegations */
  method LiveDelegations(c: Crypto, root: Key, chain: seq<Blob>, signerFP: string, now: int)
    returns (r: Result<set<string>, PolicyError>)
    ensures r == LiveAccounts(c, root, chain, signerFP, now)
  {
    hide OpenDelegation;
    var accounts: set<string> := {};
    for i := 0 to |chain|
      invariant ChainAccounts(c, root, chain[..i], signerFP, now) == Some(accounts)
    {
      assert chain[..i + 1][..i] == chain[..i];
      var d := OpenDelegation(c, root, chain[i]);
      if d.None? {
        ChainPrefix(c, root, chain, signerFP, now, i + 1);
        return Err(BadDelegation);
      }
      var key := c.parseKey(d.value.deviceKey);
      if key.Some? && c.fingerprint(key.value) == signerFP && !(d.value.expires != 0 && now >= d.value.expires) {
        accounts := accounts + {d.value.account};
      }
    }
    assert chain[..|chain|] == chain;
    if |accounts| == 0 {
      return Err(NoLiveDelegation);
    }
    r := Ok(accounts);
  }

  /** The signing device and the accounts it may sign for. */
  datatype Signer = Signer(key: Key, accounts: set<string>)

  function SignerOf(c: Crypto, sp: Response, trust: Trust, now: int): Result<Signer, PolicyError> {
    match c.parseKey(sp.signer)
    case None => Err(BadSigner)
    case Some(signer) =>
      if c.fingerprint(signer) in trust.revoked then Err(SignerRevoked)
      else
        match LiveAccounts(c, trust.root, sp.chain, c.fingerprint(signer), now)
        case Err(e) => Err(e)
        case Ok(accounts) => Ok(Signer(signer, accounts))
  }

  predicate CAKeysParse(c: Crypto, keys: seq<string>) {
    forall k :: k in keys ==> c.parseKey(k).Some?
  }

  /** verifySignedPolicy under an already checked root and revocation list. */
  function CheckSigned(c: Crypto, sp: Response, trust: Trust, floor: int, now: int): Result<Policy, PolicyError> {
    match SignerOf(c, sp, trust, now)
    case Err(e) => Err(e)
    case Ok(signer) =>
      match Bind(Opened(c, signer.key, CtxPolicy, sp.policy), c.policy)
      case None => Err(BadPolicy)
      case Some(p) =>
        if p.account !in signer.accounts then Err(NotDelegated)
        else if p.version < floor then Err(PolicyReplay)
        else if p.krlExpires == 0 || now >= p.krlExpires then Err(Stale(p))
        else if !CAKeysParse(c, p.caKeys) then Err(BadCAKey)
        else Ok(p)
  }

  /** The account policy that the response's signer signed for an account it holds. */
  function SignedAccountPolicy(c: Crypto, sp: Response, signer: Signer): Result<AccountPolicy, PolicyError>
    requires sp.accountPolicy.Some?
  {
    match Bind(Opened(c, signer.key, CtxAccountPolicy, sp.accountPolicy.value), c.accountPolicy)
    case None => Err(BadPolicy)
    case Some(ap) => if ap.account !in signer.accounts then Err(NotDelegated) else Ok(ap)
  }

  /** One machine's entry as a policy. */
  function Project(ap: AccountPolicy, machine: string, expires: int): Policy
    requires machine in ap.machines
  {
    Policy(ap.account, ap.version, ap.issued, expires, ap.machines[machine].caKeys, ap.machines[machine].grants,
      ap.krlSpec)
  }

  /** Everything in verifyAccountPolicy but the expiry. */
  function CheckContent(c: Crypto, sp: Response, trust: Trust, machine: string, floor: int,
      now: int): Result<AccountPolicy, PolicyError>
    requires sp.accountPolicy.Some?
  {
    match SignerOf(c, sp, trust, now)
    case Err(e) => Err(e)
    case Ok(signer) =>
      match SignedAccountPolicy(c, sp, signer)
      case Err(e) => Err(e)
      case Ok(ap) =>
        if ap.version < floor then Err(PolicyReplay)
        else if machine !in ap.machines then Err(NoMachineEntry)
        else if !CAKeysParse(c, ap.machines[machine].caKeys) then Err(BadCAKey)
        else Ok(ap)
  }

  /** accountPolicyHash */
  function PolicyHash(c: Crypto, b: Blob): Option<string> {
    match Decode(b.payload) case None => None case Some(payload) => Some(c.hash(Message(CtxAccountPolicy, payload)))
  }

  predicate DelegatesFreshness(c: Crypto, d: FreshnessDelegation, fp: string, account: string, now: int) {
    && c.parseKey(d.key).Some? && c.fingerprint(c.parseKey(d.key).value) == fp
    && d.account == account && LiveAt(d.expires, now)
  }

  /** Whether the chain delegates freshness to `fp`; None when a blob does not open. */
  function FreshnessDelegated(c: Crypto, root: Key, chain: seq<Blob>, fp: string, account: string,
      now: int): Option<bool> {
    if chain == [] then Some(false)
    else
      var n := |chain| - 1;
      match (FreshnessDelegated(c, root, chain[..n], fp, account, now), OpenFreshnessDelegation(c, root, chain[n]))
      case (Some(before), Some(d)) => Some(before || DelegatesFreshness(c, d, fp, account, now))
      case _ => None
  }

  /** Why a statement does not count. */
  datatype FreshnessError =
    | BadFreshnessKey | FreshnessKeyRevoked | BadFreshnessDelegation | FreshnessNotDelegated
    | BadStatement | UnreadablePolicy | ForOtherPolicy | FromTheFuture | StatementExpired

  /** The expiry that a statement grants at `now`, if it is for this policy. */
  function StatementVerdict(f: Freshness, ap: AccountPolicy, hash: string, now: int): Result<int, FreshnessError> {
    if f.policyHash != hash || f.account != ap.account || f.group != ap.group || f.version != ap.version then
      Err(ForOtherPolicy)
    else if f.issued > now + MAX_FRESHNESS_CLOCK_SKEW then Err(FromTheFuture)
    else
      var cap := f.issued + MAX_FRESHNESS_WINDOW;
      var exp := if f.expires > cap then cap else f.expires;
      if now >= exp then Err(StatementExpired) else Ok(exp)
  }

  /** verifyFreshness on values. */
  function FreshnessVerdict(c: Crypto, sp: Response, trust: Trust, ap: AccountPolicy, now: int): Result<int,
    FreshnessError>
    requires sp.accountPolicy.Some? && sp.freshness.Some?
  {
    match c.parseKey(sp.freshnessSigner)
    case None => Err(BadFreshnessKey)
    case Some(key) =>
      var fp := c.fingerprint(key);
      if fp in trust.revoked then Err(FreshnessKeyRevoked)
      else
        match FreshnessDelegated(c, trust.root, sp.freshnessChain, fp, ap.account, now)
        case None => Err(BadFreshnessDelegation)
        case Some(delegated) =>
          if !delegated then Err(FreshnessNotDelegated)
          else
            match Bind(Opened(c, key, CtxFreshness, sp.freshness.value), c.freshness)
            case None => Err(BadStatement)
            case Some(f) =>
              match PolicyHash(c, sp.accountPolicy.value)
              case None => Err(UnreadablePolicy)
              case Some(hash) => StatementVerdict(f, ap, hash, now)
  }

  /** The expiry granted by a response's statement, if it has one and it counts. */
  function FreshnessExpiry(c: Crypto, sp: Response, trust: Trust, ap: AccountPolicy, now: int): Option<int>
    requires sp.accountPolicy.Some?
  {
    if sp.freshness.None? then None
    else match FreshnessVerdict(c, sp, trust, ap, now) case Err(_) => None case Ok(exp) => Some(exp)
  }

  lemma {:induction false} FreshnessPrefix(c: Crypto, root: Key, chain: seq<Blob>, fp: string, account: string,
      now: int, k: nat)
    requires k <= |chain| && FreshnessDelegated(c, root, chain[..k], fp, account, now).None?
    ensures FreshnessDelegated(c, root, chain, fp, account, now).None?
    decreases |chain|
  {
    hide OpenFreshnessDelegation, DelegatesFreshness;
    if k < |chain| {
      assert chain[..|chain| - 1][..k] == chain[..k];
      FreshnessPrefix(c, root, chain[..|chain| - 1], fp, account, now, k);
    } else {
      assert chain[..k] == chain;
    }
  }

  /** verifyFreshness: the loop that looks for a live delegation, then the statement. */
  method VerifyFreshness(c: Crypto, sp: Response, trust: Trust, ap: AccountPolicy, now: int)
    returns (r: Result<int, FreshnessError>)
    requires sp.accountPolicy.Some? && sp.freshness.Some?
    ensures r == FreshnessVerdict(c, sp, trust, ap, now)
  {
    hide OpenFreshnessDelegation, Opened, PolicyHash;
    var key := c.parseKey(sp.freshnessSigner);
    if key.None? {
      return Err(BadFreshnessKey);
    }
    var fp := c.fingerprint(key.value);
    if fp in trust.revoked {
      return Err(FreshnessKeyRevoked);
    }
    var chain, delegated := sp.freshnessChain, false;
    for i := 0 to |chain|
      invariant FreshnessDelegated(c, trust.root, chain[..i], fp, ap.account, now) == Some(delegated)
    {
      assert chain[..i + 1][..i] == chain[..i];
      var d := OpenFreshnessDelegation(c, trust.root, chain[i]);
      if d.None? {
        FreshnessPrefix(c, trust.root, chain, fp, ap.account, now, i + 1);
        return Err(BadFreshnessDelegation);
      }
      var k := c.parseKey(d.value.key);
      if k.None? || c.fingerprint(k.value) != fp || d.value.account != ap.account {
        continue;
      }
      if d.value.expires != 0 && now >= d.value.expires {
        continue;
      }
      delegated := true;
    }
    assert chain[..|chain|] == chain;
    if !delegated {
      return Err(FreshnessNotDelegated);
    }
    var f := Bind(Opened(c, key.value, CtxFreshness, sp.freshness.value), c.freshness);
    if f.None? {
      return Err(BadStatement);
    }
    var want := PolicyHash(c, sp.accountPolicy.value);
    if want.None? {
      return Err(UnreadablePolicy);
    }
    r := StatementVerdict(f.value, ap, want.value, now);
  }

  function Max(a: int, b: int): int { if a < b then b else a }

  /** Expiry of an account policy once the freshness statement is taken into account. */
  function EffectiveExpiry(c: Crypto, sp: Response, trust: Trust, ap: AccountPolicy, now: int): int
    requires sp.accountPolicy.Some?
  {
    match FreshnessExpiry(c, sp, trust, ap, now) case None => ap.expires case Some(exp) => Max(ap.expires, exp)
  }

  /** verifyAccountPolicy under an already checked root and revocation list. */
  function CheckAccount(c: Crypto, sp: Response, trust: Trust, machine: string, floor: int,
      now: int): Result<Policy, PolicyError>
    requires sp.accountPolicy.Some?
  {
    match CheckContent(c, sp, trust, machine, floor, now)
    case Err(e) => Err(e)
    case Ok(ap) =>
      var p := Project(ap, machine, EffectiveExpiry(c, sp, trust, ap, now));
      if p.krlExpires == 0 || now >= p.krlExpires then Err(Stale(p)) else Ok(p)
  }

  predicate IsAccountFormat(sp: Response) {
    sp.accountPolicy.Some? && sp.accountPolicy.value.payload != ""
  }

  /** verifyPolicyAny with verifySignedPolicy and verifyAccountPolicy. */
  function VerifyAny(c: Crypto, sp: Response, rootFP: string, machine: string, st: State, now: int): Result<Policy,
      PolicyError> {
    if !IsAccountFormat(sp) && st.format == FORMAT_ACCOUNT then Err(FormatDowngrade)
    else
      match RootAndRevocations(c, sp, rootFP, st.revocationsVersion)
      case Err(e) => Err(e)
      case Ok(trust) =>
        if IsAccountFormat(sp) then CheckAccount(c, sp, trust, machine, st.version, now)
        else CheckSigned(c, sp, trust, st.version, now)
  }

  // ----- the same checks as the source runs them

  /** The opening of verifySignedPolicy and verifyAccountPolicy. */
  method VerifySigner(c: Crypto, sp: Response, trust: Trust, now: int) returns (r: Result<Signer, PolicyError>)
    ensures r == SignerOf(c, sp, trust, now)
  {
    var signer := c.parseKey(sp.signer);
    if signer.None? {
      return Err(BadSigner);
    }
    var fp := c.fingerprint(signer.value);
    if fp in trust.revoked {
      return Err(SignerRevoked);
    }
    var accounts := LiveDelegations(c, trust.root, sp.chain, fp, now);
    if accounts.Err? {
      return Err(accounts.error);
    }
    r := Ok(Signer(signer.value, accounts.value));
  }

  /** verifyAccountPolicy */
  method VerifyAccountPolicy(c: Crypto, sp: Response, rootFP: string, machine: string, st: State, now: int)
    returns (r: Result<Policy, PolicyError>)
    requires IsAccountFormat(sp)
    ensures r == VerifyAny(c, sp, rootFP, machine, st, now)
  {
    hide SignerOf, RootAndRevocations, FreshnessExpiry, FreshnessVerdict, Opened, CAKeysParse;
    var trust := VerifyRootAndRevocations(c, sp, rootFP, st.revocationsVersion);
    if trust.Err? {
      return Err(trust.error);
    }
    var signer := VerifySigner(c, sp, trust.value, now);
    if signer.Err? {
      return Err(signer.error);
    }
    var payload := Bind(Opened(c, signer.value.key, CtxAccountPolicy, sp.accountPolicy.value), c.accountPolicy);
    if payload.None? {
      return Err(BadPolicy);
    }
    var ap := payload.value;
    if ap.account !in signer.value.accounts {
      return Err(NotDelegated);
    }
    if ap.version < st.version {
      return Err(PolicyReplay);
    }
    if machine !in ap.machines {
      return Err(NoMachineEntry);
    }
    if !CAKeysParse(c, ap.machines[machine].caKeys) {
      return Err(BadCAKey);
    }
    var p := Project(ap, machine, ap.expires);
    StatementOrNone(c, sp, trust.value, ap, now);
    if sp.freshness.Some? {
      var exp := VerifyFreshness(c, sp, trust.value, ap, now);
      if exp.Ok? && exp.value > p.krlExpires {
        p := p.(krlExpires := exp.value);
      }
    }
    if p.krlExpires == 0 || now >= p.krlExpires {
      return Err(Stale(p));
    }
    r := Ok(p);
  }

  lemma StatementOrNone(c: Crypto, sp: Response, trust: Trust, ap: AccountPolicy, now: int)
    requires sp.accountPolicy.Some?
    ensures FreshnessExpiry(c, sp, trust, ap, now) ==
      if sp.freshness.None? then None
      else match FreshnessVerdict(c, sp, trust, ap, now) case Err(_) => None case Ok(exp) => Some(exp)
  {
  }

  /** verifySignedPolicy */
  method VerifySignedPolicy(c: Crypto, sp: Response, rootFP: string, machine: string, st: State, now: int)
    returns (r: Result<Policy, PolicyError>)
    requires !IsAccountFormat(sp) && st.format != FORMAT_ACCOUNT
    ensures r == VerifyAny(c, sp, rootFP, machine, st, now)
  {
    hide SignerOf, RootAndRevocations, Opened, CAKeysParse;
    var trust := VerifyRootAndRevocations(c, sp, rootFP, st.revocationsVersion);
    if trust.Err? {
      return Err(trust.error);
    }
    var signer := VerifySigner(c, sp, trust.value, now);
    if signer.Err? {
      return Err(signer.error);
    }
    var payload := Bind(Opened(c, signer.value.key, CtxPolicy, sp.policy), c.policy);
    if payload.None? {
      return Err(BadPolicy);
    }
    var p := payload.value;
    if p.account !in signer.value.accounts {
      return Err(NotDelegated);
    }
    if p.version < st.version {
      return Err(PolicyReplay);
    }
    if p.krlExpires == 0 || now >= p.krlExpires {
      return Err(Stale(p));
    }
    if !CAKeysParse(c, p.caKeys) {
      return Err(BadCAKey);
    }
    r := Ok(p);
  }

  /** verifyPolicyAny */
  method VerifyPolicyAny(c: Crypto, sp: Response, rootFP: string, machine: string, st: State, now: int)
    returns (r: Result<Policy, PolicyError>)
    ensures r == VerifyAny(c, sp, rootFP, machine, st, now)
  {
    if sp.accountPolicy.Some? && sp.accountPolicy.value.payload != "" {
      r := VerifyAccountPolicy(c, sp, rootFP, machine, st, now);
    } else if st.format == FORMAT_ACCOUNT {
      r := Err(FormatDowngrade);
    } else {
      r := VerifySignedPolicy(c, sp, rootFP, machine, st, now);
    }
  }
}
