/** What an accepted response guarantees, and how acceptance reacts to freshness
    statements, to higher floors and to more revocations. */
module PolicyTheorems {
  import opened Base64
  import opened Gf256
  import opened Prelude
  import opened SignedPolicy

  // ----- domain separation

  lemma ContextHasNoBreak(ctx: Context)
    ensures '\n' !in ContextName(ctx)
  {
  }

  lemma ContextNamesDiffer(ctx: Context, ctx': Context)
    requires ctx != ctx' && |ContextName(ctx)| == |ContextName(ctx')|
    ensures |ContextName(ctx)| > 6 && ContextName(ctx)[6] as int < 256 && ContextName(ctx')[6] as int < 256
    ensures ContextName(ctx)[6] != ContextName(ctx')[6]
  {
  }

  /** Where the context ends can be read off the message. */
  lemma BreakInMessage(ctx: Context, payload: seq<byte>)
    ensures var m, n := Message(ctx, payload), |ContextName(ctx)|;
      n < |m| && m[n] == 10 && m[n + 1..] == payload && forall i :: 0 <= i < n ==> m[i] != 10
  {
    hide ContextName;
    ContextHasNoBreak(ctx);
    var name := ContextName(ctx);
    assert forall i :: 0 <= i < |name| ==> name[i] in name;
  }

  /** A signed message determines its context and its payload. */
  lemma MessageUnambiguous(ctx: Context, payload: seq<byte>, ctx': Context, payload': seq<byte>)
    requires Message(ctx, payload) == Message(ctx', payload')
    ensures ctx == ctx' && payload == payload'
  {
    hide ContextName, Message;
    BreakInMessage(ctx, payload);
    BreakInMessage(ctx', payload');
    if ctx != ctx' {
      ContextNamesDiffer(ctx, ctx');
      SeventhByte(ctx, payload);
      SeventhByte(ctx', payload');
    }
  }

  lemma SeventhByte(ctx: Context, payload: seq<byte>)
    requires |ContextName(ctx)| > 6 && ContextName(ctx)[6] as int < 256
    ensures |Message(ctx, payload)| > 6 && Message(ctx, payload)[6] == ContextName(ctx)[6] as int
  {
    hide ContextName;
  }

  /** A signature that opens a blob of one kind under one key opens no blob of another
      kind, under another key, or with another payload. */
  lemma NoCrossUse(c: Crypto, key: Key, ctx: Context, b: Blob, key': Key, ctx': Context, b': Blob)
    requires Sound(c) && Opened(c, key, ctx, b).Some? && Opened(c, key', ctx', b').Some?
    requires Decode(b.sig) == Decode(b'.sig)
    ensures key == key' && ctx == ctx' && Opened(c, key, ctx, b) == Opened(c, key', ctx', b')
  {
    hide Decode, Message;
    MessageUnambiguous(ctx, Decode(b.payload).value, ctx', Decode(b'.payload).value);
  }

  /** The signed bytes of each kind: its text, a line break, and the payload. */
  lemma SignedTexts(payload: seq<byte>)
    ensures Message(CtxDelegation, payload) == Ascii("p3sig-delegation-v1\n") + payload
    ensures Message(CtxRevocations, payload) == Ascii("p3sig-revocations-v1\n") + payload
    ensures Message(CtxPolicy, payload) == Ascii("p3sig-policy-v1\n") + payload
    ensures Message(CtxAccountPolicy, payload) == Ascii("p3sig-account-policy-v1\n") + payload
    ensures Message(CtxFreshness, payload) == Ascii("p3sig-freshness-v1\n") + payload
    ensures Message(CtxFreshnessDelegation, payload) == Ascii("p3sig-freshness-delegation-v1\n") + payload
    ensures Message(CtxSecret, payload) == Ascii("p3sig-secret-v1\n") + payload
    ensures Ascii("p3\n") == [0x70, 0x33, 0x0a]
  {
  }

  /** What was signed in a context opens in it, under its key. */
  lemma SignedOpens(c: Crypto, key: Key, ctx: Context, payload: seq<byte>, sig: seq<byte>)
    requires c.verify(key, Message(ctx, payload), sig)
    ensures Opened(c, key, ctx, Blob(Encode(payload), Encode(sig))) == Some(payload)
  {
    hide Decode, Encode, Message;
    DecodeEncode(payload);
    DecodeEncode(sig);
  }

  // ----- authenticity

  /** `d` is what the root signed as a delegation in this blob. */
  ghost predicate RootDelegation(c: Crypto, root: Key, b: Blob, d: Delegation) {
    exists payload :: Opened(c, root, CtxDelegation, b) == Some(payload) && c.delegation(payload) == Some(d)
  }

  /** A root-signed delegation in the chain that lets this key sign for this account now. */
  ghost predicate HoldsDelegation(c: Crypto, root: Key, chain: seq<Blob>, signerFP: string, account: string, now: int) {
    exists b, d, key ::
      && b in chain && RootDelegation(c, root, b, d) && d.account == account
      && c.parseKey(d.deviceKey) == Some(key) && c.fingerprint(key) == signerFP
      && (d.expires == 0 || now < d.expires)
  }

  lemma RootDelegationIff(c: Crypto, root: Key, b: Blob, d: Delegation)
    ensures OpenDelegation(c, root, b) == Some(d) <==> RootDelegation(c, root, b, d)
  {
    hide Opened;
    if OpenDelegation(c, root, b) == Some(d) {
      assert Opened(c, root, CtxDelegation, b).Some?;
    }
  }

  lemma OpensIff(c: Crypto, root: Key, b: Blob)
    ensures OpenDelegation(c, root, b).Some? <==> HoldsSome(c, root, b)
  {
    hide OpenDelegation, RootDelegation;
    forall d
      ensures OpenDelegation(c, root, b) == Some(d) <==> RootDelegation(c, root, b, d)
    {
      RootDelegationIff(c, root, b, d);
    }
    if OpenDelegation(c, root, b).Some? {
      assert RootDelegation(c, root, b, OpenDelegation(c, root, b).value);
    }
  }

  ghost predicate HoldsSome(c: Crypto, root: Key, b: Blob) {
    exists d :: RootDelegation(c, root, b, d)
  }

  /** One more blob at the end of the chain. */
  lemma HoldsNext(c: Crypto, root: Key, chain: seq<Blob>, b: Blob, signerFP: string, account: string, now: int)
    requires OpenDelegation(c, root, b).Some?
    ensures HoldsDelegation(c, root, chain + [b], signerFP, account, now) <==>
      || HoldsDelegation(c, root, chain, signerFP, account, now)
      || (Delegates(c, OpenDelegation(c, root, b).value, signerFP, now)
          && OpenDelegation(c, root, b).value.account == account)
  {
    hide OpenDelegation, RootDelegation;
    forall b', d
      ensures OpenDelegation(c, root, b') == Some(d) <==> RootDelegation(c, root, b', d)
    {
      RootDelegationIff(c, root, b', d);
    }
    var d := OpenDelegation(c, root, b).value;
    assert RootDelegation(c, root, b, d);
    assert b in chain + [b];
    assert forall b' :: b' in chain + [b] <==> b' in chain || b' == b;
  }

  lemma {:induction false} AccountsAreDelegated(c: Crypto, root: Key, chain: seq<Blob>, signerFP: string, now: int,
      account: string)
    requires ChainAccounts(c, root, chain, signerFP, now).Some?
    ensures account in ChainAccounts(c, root, chain, signerFP, now).value <==>
      HoldsDelegation(c, root, chain, signerFP, account, now)
    decreases |chain|
  {
    hide OpenDelegation, Delegates;
    hide HoldsDelegation;
    if chain == [] {
      NothingHeld(c, root, signerFP, account, now);
    } else {
      var n := |chain| - 1;
      AccountsAreDelegated(c, root, chain[..n], signerFP, now, account);
      HoldsNext(c, root, chain[..n], chain[n], signerFP, account, now);
      assert chain == chain[..n] + [chain[n]];
    }
  }

  lemma NothingHeld(c: Crypto, root: Key, signerFP: string, account: string, now: int)
    ensures !HoldsDelegation(c, root, [], signerFP, account, now)
  {
  }

  /** What the root signed as a revocation list in this blob. */
  function RootList(c: Crypto, root: Key, b: Blob): Option<Revocations> {
    match Opened(c, root, CtxRevocations, b) case None => None case Some(payload) => c.revocations(payload)
  }

  lemma ListOpens(c: Crypto, root: Key, b: Blob)
    ensures OpenRevocations(c, root, b) == RootList(c, root, b)
  {
    hide Opened;
  }

  /** The fingerprints revoked by the list a response carries. */
  function RevokedBy(c: Crypto, root: Key, sp: Response): set<string> {
    match sp.revocations
    case None => {}
    case Some(b) => match RootList(c, root, b) case None => {} case Some(r) => set fp | fp in r.revoked
  }

  /** `p` is this machine's entry in the account policy, with the account's own fields. */
  predicate IsEntry(ap: AccountPolicy, machine: string, p: Policy) {
    && machine in ap.machines
    && p.account == ap.account && p.version == ap.version && p.issued == ap.issued && p.krlSpec == ap.krlSpec
    && p.caKeys == ap.machines[machine].caKeys && p.grants == ap.machines[machine].grants
  }

  /** `p` was signed under the pinned root: by a key that is not revoked and holds a
      live delegation for p's account, over exactly p, or, in account format, over an
      account policy whose entry for this machine is p. */
  ghost predicate Authentic(c: Crypto, sp: Response, rootFP: string, machine: string, now: int, p: Policy) {
    && rootFP != "" && c.parseKey(sp.rootKey).Some? && c.parseKey(sp.signer).Some?
    && var root, signer := c.parseKey(sp.rootKey).value, c.parseKey(sp.signer).value;
    && c.fingerprint(root) == rootFP
    && c.fingerprint(signer) !in RevokedBy(c, root, sp)
    && HoldsDelegation(c, root, sp.chain, c.fingerprint(signer), p.account, now)
    && p.krlExpires != 0 && now < p.krlExpires
    && (forall k :: k in p.caKeys ==> c.parseKey(k).Some?)
    && if IsAccountFormat(sp) then
         exists ap :: Bind(Opened(c, signer, CtxAccountPolicy, sp.accountPolicy.value), c.accountPolicy) == Some(ap)
           && IsEntry(ap, machine, p)
       else Bind(Opened(c, signer, CtxPolicy, sp.policy), c.policy) == Some(p)
  }

  lemma SignerIsDelegated(c: Crypto, sp: Response, trust: Trust, now: int, account: string)
    requires SignerOf(c, sp, trust, now).Ok? && account in SignerOf(c, sp, trust, now).value.accounts
    ensures c.parseKey(sp.signer) == Some(SignerOf(c, sp, trust, now).value.key)
    ensures var fp := c.fingerprint(SignerOf(c, sp, trust, now).value.key);
      fp !in trust.revoked && HoldsDelegation(c, trust.root, sp.chain, fp, account, now)
  {
    hide OpenDelegation, Delegates, HoldsDelegation;
    var fp := c.fingerprint(c.parseKey(sp.signer).value);
    AccountsAreDelegated(c, trust.root, sp.chain, fp, now, account);
  }

  lemma TrustIsPinned(c: Crypto, sp: Response, rootFP: string, floor: int)
    requires RootAndRevocations(c, sp, rootFP, floor).Ok?
    ensures var trust := RootAndRevocations(c, sp, rootFP, floor).value;
      && rootFP != "" && c.parseKey(sp.rootKey) == Some(trust.root) && c.fingerprint(trust.root) == rootFP
      && trust.revoked == RevokedBy(c, trust.root, sp)
  {
    hide OpenRevocations, RootList;
    if sp.revocations.Some? {
      ListOpens(c, c.parseKey(sp.rootKey).value, sp.revocations.value);
    }
  }

  /** Every accepted policy is authentic and not below the version floor. */
  lemma AcceptedIsAuthentic(c: Crypto, sp: Response, rootFP: string, machine: string, st: State, now: int)
    requires VerifyAny(c, sp, rootFP, machine, st, now).Ok?
    ensures var p := VerifyAny(c, sp, rootFP, machine, st, now).value;
      Authentic(c, sp, rootFP, machine, now, p) && p.version >= st.version
  {
    hide SignerOf, RootAndRevocations, Opened, FreshnessExpiry, HoldsDelegation, RevokedBy;
    var p := VerifyAny(c, sp, rootFP, machine, st, now).value;
    TrustIsPinned(c, sp, rootFP, st.revocationsVersion);
    var trust := RootAndRevocations(c, sp, rootFP, st.revocationsVersion).value;
    SignerIsDelegated(c, sp, trust, now, p.account);
  }

  // ----- exactly what is accepted

  /** Nothing in the response is older than the saved state allows: the format, and the
      version of a revocation list that opens, or its absence. */
  ghost predicate NotRolledBack(c: Crypto, root: Key, sp: Response, st: State) {
    && (st.format == FORMAT_ACCOUNT ==> IsAccountFormat(sp))
    && match sp.revocations
       case None => st.revocationsVersion <= 0
       case Some(b) =>
         var list := RootList(c, root, b);
         list.Some? && list.value.version >= st.revocationsVersion
  }

  /** Every blob of the chain opens under the root. */
  ghost predicate ChainOpens(c: Crypto, root: Key, chain: seq<Blob>) {
    forall b :: b in chain ==> HoldsSome(c, root, b)
  }

  lemma {:induction false} ChainOpensIff(c: Crypto, root: Key, chain: seq<Blob>, signerFP: string, now: int)
    ensures ChainAccounts(c, root, chain, signerFP, now).Some? <==> ChainOpens(c, root, chain)
    decreases |chain|
  {
    hide OpenDelegation, Delegates, HoldsSome;
    if chain != [] {
      var n := |chain| - 1;
      OpensIff(c, root, chain[n]);
      ChainOpensIff(c, root, chain[..n], signerFP, now);
      assert chain == chain[..n] + [chain[n]];
    }
  }

  lemma TrustedRoot(c: Crypto, sp: Response, rootFP: string, st: State, root: Key)
    requires rootFP != "" && c.parseKey(sp.rootKey) == Some(root) && c.fingerprint(root) == rootFP
    requires st.format == FORMAT_ACCOUNT ==> IsAccountFormat(sp)
    ensures NotRolledBack(c, root, sp, st) <==> RootAndRevocations(c, sp, rootFP, st.revocationsVersion).Ok?
    ensures NotRolledBack(c, root, sp, st) ==>
      RootAndRevocations(c, sp, rootFP, st.revocationsVersion) == Ok(Trust(root, RevokedBy(c, root, sp)))
  {
    hide OpenRevocations, RootList;
    if sp.revocations.Some? {
      ListOpens(c, root, sp.revocations.value);
    }
  }

  /** The key may sign for the account here: readable, not revoked, delegated, and the
      whole chain opens. */
  ghost predicate MaySign(c: Crypto, sp: Response, trust: Trust, now: int, account: string) {
    && c.parseKey(sp.signer).Some?
    && var fp := c.fingerprint(c.parseKey(sp.signer).value);
    && fp !in trust.revoked && ChainOpens(c, trust.root, sp.chain)
    && HoldsDelegation(c, trust.root, sp.chain, fp, account, now)
  }

  lemma MaySignIff(c: Crypto, sp: Response, trust: Trust, now: int, account: string)
    ensures var r := SignerOf(c, sp, trust, now);
      MaySign(c, sp, trust, now, account) <==> r.Ok? && account in r.value.accounts
    ensures SignerOf(c, sp, trust, now).Ok? ==>
      && c.parseKey(sp.signer) == Some(SignerOf(c, sp, trust, now).value.key)
      && c.fingerprint(c.parseKey(sp.signer).value) !in trust.revoked && ChainOpens(c, trust.root, sp.chain)
  {
    hide ChainAccounts, HoldsDelegation, ChainOpens;
    if c.parseKey(sp.signer).Some? {
      var fp := c.fingerprint(c.parseKey(sp.signer).value);
      ChainOpensIff(c, trust.root, sp.chain, fp, now);
      if ChainOpens(c, trust.root, sp.chain) {
        AccountsAreDelegated(c, trust.root, sp.chain, fp, now, account);
      }
    }
  }

  /** The expiry that counts: the signed one, or in account format the later of it and
      what the freshness statement grants. */
  ghost predicate ExpiresAsSigned(c: Crypto, sp: Response, trust: Trust, now: int, p: Policy) {
    IsAccountFormat(sp) && c.parseKey(sp.signer).Some? ==>
      forall ap :: Bind(Opened(c, c.parseKey(sp.signer).value, CtxAccountPolicy, sp.accountPolicy.value),
        c.accountPolicy) == Some(ap)
        ==> p.krlExpires == EffectiveExpiry(c, sp, trust, ap, now)
  }

  /** A response is accepted as `p` exactly when p is authentic, its chain opens, nothing is
      below the saved floors, and p expires when its statement and signature say. */
  lemma AcceptedIffAuthentic(c: Crypto, sp: Response, rootFP: string, machine: string, st: State, now: int, p: Policy)
    ensures VerifyAny(c, sp, rootFP, machine, st, now) == Ok(p) <==>
      && Authentic(c, sp, rootFP, machine, now, p) && p.version >= st.version
      && var root := c.parseKey(sp.rootKey).value;
      && NotRolledBack(c, root, sp, st) && ChainOpens(c, root, sp.chain)
      && ExpiresAsSigned(c, sp, Trust(root, RevokedBy(c, root, sp)), now, p)
  {
    hide SignerOf, RootAndRevocations, NotRolledBack, ChainOpens, Opened, FreshnessExpiry, HoldsDelegation, RevokedBy;
    if rootFP != "" && c.parseKey(sp.rootKey).Some? && c.fingerprint(c.parseKey(sp.rootKey).value) == rootFP {
      var root := c.parseKey(sp.rootKey).value;
      FormatKept(c, root, sp, st);
      if st.format == FORMAT_ACCOUNT ==> IsAccountFormat(sp) {
        TrustedRoot(c, sp, rootFP, st, root);
        MaySignIff(c, sp, Trust(root, RevokedBy(c, root, sp)), now, p.account);
      }
    } else {
      RootRefused(c, sp, rootFP, st.revocationsVersion);
    }
  }

  lemma FormatKept(c: Crypto, root: Key, sp: Response, st: State)
    ensures NotRolledBack(c, root, sp, st) && st.format == FORMAT_ACCOUNT ==> IsAccountFormat(sp)
  {
  }

  lemma RootRefused(c: Crypto, sp: Response, rootFP: string, floor: int)
    requires rootFP == "" || c.parseKey(sp.rootKey).None? || c.fingerprint(c.parseKey(sp.rootKey).value) != rootFP
    ensures RootAndRevocations(c, sp, rootFP, floor).Err?
  {
  }

  // ----- why a response is refused

  /** The account policy, or the per-machine policy, that the named signer signed. */
  ghost predicate OffersAccount(c: Crypto, sp: Response, ap: AccountPolicy) {
    && IsAccountFormat(sp) && c.parseKey(sp.signer).Some?
    && Bind(Opened(c, c.parseKey(sp.signer).value, CtxAccountPolicy, sp.accountPolicy.value), c.accountPolicy)
      == Some(ap)
  }

  ghost predicate OffersMachine(c: Crypto, sp: Response, p: Policy) {
    && !IsAccountFormat(sp) && c.parseKey(sp.signer).Some?
    && Bind(Opened(c, c.parseKey(sp.signer).value, CtxPolicy, sp.policy), c.policy) == Some(p)
  }

  /** Either way, its account and version. */
  ghost predicate Offered(c: Crypto, sp: Response, account: string, version: int) {
    || (exists ap :: OffersAccount(c, sp, ap) && ap.account == account && ap.version == version)
    || (exists p :: OffersMachine(c, sp, p) && p.account == account && p.version == version)
  }

  ghost predicate OffersUnreadableCA(c: Crypto, sp: Response, machine: string) {
    || (exists ap, k :: OffersAccount(c, sp, ap) && machine in ap.machines
          && k in ap.machines[machine].caKeys && c.parseKey(k) == None)
    || (exists p, k :: OffersMachine(c, sp, p) && k in p.caKeys && c.parseKey(k) == None)
  }

  function RootOf(c: Crypto, sp: Response): Key {
    match c.parseKey(sp.rootKey) case Some(root) => root case None => Key(0)
  }

  function SignerFP(c: Crypto, sp: Response): string {
    match c.parseKey(sp.signer) case Some(signer) => c.fingerprint(signer) case None => ""
  }

  function ListOf(c: Crypto, sp: Response): Option<Revocations> {
    match sp.revocations case Some(b) => RootList(c, RootOf(c, sp), b) case None => None
  }

  ghost predicate SignerHolds(c: Crypto, sp: Response, account: string, now: int) {
    HoldsDelegation(c, RootOf(c, sp), sp.chain, SignerFP(c, sp), account, now)
  }

  /** What each refusal means. */
  ghost predicate Because(c: Crypto, sp: Response, rootFP: string, machine: string, st: State, now: int,
      e: PolicyError) {
    match e
    case NoRootPinned => rootFP == ""
    case BadRootKey => c.parseKey(sp.rootKey) == None
    case WrongRoot => c.parseKey(sp.rootKey).Some? && c.fingerprint(RootOf(c, sp)) != rootFP
    case BadRevocations => sp.revocations.Some? && ListOf(c, sp) == None
    case RevocationReplay => ListOf(c, sp).Some? && ListOf(c, sp).value.version < st.revocationsVersion
    case RevocationStripped => sp.revocations == None && st.revocationsVersion > 0
    case BadSigner => c.parseKey(sp.signer) == None
    case SignerRevoked => c.parseKey(sp.signer).Some? && SignerFP(c, sp) in RevokedBy(c, RootOf(c, sp), sp)
    case BadDelegation => !ChainOpens(c, RootOf(c, sp), sp.chain)
    case NoLiveDelegation => forall account :: !SignerHolds(c, sp, account, now)
    case BadPolicy => forall account, version :: !Offered(c, sp, account, version)
    case NotDelegated =>
      exists account, version :: Offered(c, sp, account, version) && !SignerHolds(c, sp, account, now)
    case PolicyReplay => exists account, version :: Offered(c, sp, account, version) && version < st.version
    case NoMachineEntry => exists ap :: OffersAccount(c, sp, ap) && machine !in ap.machines
    case BadCAKey => OffersUnreadableCA(c, sp, machine)
    case FormatDowngrade =>
      st.format == "account" && (sp.accountPolicy == None || sp.accountPolicy.value.payload == "")
    case Stale(p) =>
      && (p.krlExpires == 0 || now >= p.krlExpires)
      && (OffersMachine(c, sp, p) || exists ap :: OffersAccount(c, sp, ap) && IsEntry(ap, machine, p))
      && ExpiresAsSigned(c, sp, Trust(RootOf(c, sp), RevokedBy(c, RootOf(c, sp), sp)), now, p)
  }

  /** The order of the checks: only the place of the expiry differs between the formats. */
  function Rank(sp: Response, e: PolicyError): nat {
    match e
    case FormatDowngrade => 0
    case NoRootPinned => 1
    case BadRootKey => 2
    case WrongRoot => 3
    case BadRevocations => 4
    case RevocationReplay => 5
    case RevocationStripped => 6
    case BadSigner => 7
    case SignerRevoked => 8
    case BadDelegation => 9
    case NoLiveDelegation => 10
    case BadPolicy => 11
    case NotDelegated => 12
    case PolicyReplay => 13
    case NoMachineEntry => 14
    case BadCAKey => 16
    case Stale(_) => if IsAccountFormat(sp) then 17 else 15
  }

  /** The root check's refusals: for their own reason, and for none that is checked before. */
  lemma RootBecause(c: Crypto, sp: Response, rootFP: string, machine: string, st: State, now: int, e: PolicyError)
    requires st.format == "account" ==> IsAccountFormat(sp)
    ensures var r := RootAndRevocations(c, sp, rootFP, st.revocationsVersion);
      && (r.Err? ==> Because(c, sp, rootFP, machine, st, now, r.error))
      && (Rank(sp, e) < (if r.Err? then Rank(sp, r.error) else 7) ==> !Because(c, sp, rootFP, machine, st, now, e))
  {
    hide OpenRevocations, RootList, RevokedBy, Offered, OffersUnreadableCA, SignerHolds, ChainOpens, ExpiresAsSigned,
      OffersMachine, OffersAccount;
    if c.parseKey(sp.rootKey).Some? && sp.revocations.Some? {
      ListOpens(c, c.parseKey(sp.rootKey).value, sp.revocations.value);
    }
  }

  /** The signing device's refusals. */
  lemma SignerBecause(c: Crypto, sp: Response, rootFP: string, trust: Trust, machine: string, st: State, now: int,
      e: PolicyError)
    requires c.parseKey(sp.rootKey) == Some(trust.root) && trust.revoked == RevokedBy(c, trust.root, sp)
    ensures var r := SignerOf(c, sp, trust, now);
      && (r.Err? ==> 7 <= Rank(sp, r.error) < 11 && Because(c, sp, rootFP, machine, st, now, r.error))
      && (7 <= Rank(sp, e) < (if r.Err? then Rank(sp, r.error) else 11) ==>
            !Because(c, sp, rootFP, machine, st, now, e))
  {
    hide ChainAccounts, ChainOpens, HoldsDelegation, RevokedBy, Offered, OffersUnreadableCA, ListOf, ExpiresAsSigned,
      OffersMachine, OffersAccount;
    if c.parseKey(sp.signer).Some? {
      var fp := c.fingerprint(c.parseKey(sp.signer).value);
      ChainOpensIff(c, trust.root, sp.chain, fp, now);
      if ChainOpens(c, trust.root, sp.chain) {
        forall account
          ensures account in ChainAccounts(c, trust.root, sp.chain, fp, now).value <==> SignerHolds(c, sp, account, now)
        {
          AccountsAreDelegated(c, trust.root, sp.chain, fp, now, account);
        }
      }
    }
  }

  /** The refusals of a per-machine policy. */
  lemma MachineBecause(c: Crypto, sp: Response, rootFP: string, trust: Trust, machine: string, st: State, now: int,
      e: PolicyError)
    requires c.parseKey(sp.rootKey) == Some(trust.root) && trust.revoked == RevokedBy(c, trust.root, sp)
    requires !IsAccountFormat(sp) && SignerOf(c, sp, trust, now).Ok?
    ensures var r := CheckSigned(c, sp, trust, st.version, now);
      && (r.Err? ==> 11 <= Rank(sp, r.error) && Because(c, sp, rootFP, machine, st, now, r.error))
      && (11 <= Rank(sp, e) && (r.Err? ==> Rank(sp, e) < Rank(sp, r.error)) ==>
            !Because(c, sp, rootFP, machine, st, now, e))
  {
    hide SignerOf, Opened, ChainOpens, HoldsDelegation, RevokedBy, ListOf, OffersAccount;
    MaySignIff(c, sp, trust, now, "");
    var p := Bind(Opened(c, SignerOf(c, sp, trust, now).value.key, CtxPolicy, sp.policy), c.policy);
    OffersOneFormat(c, sp);
    if p.Some? {
      assert OffersMachine(c, sp, p.value);
      assert Offered(c, sp, p.value.account, p.value.version);
      MaySignIff(c, sp, trust, now, p.value.account);
    }
  }

  /** The refusals of an account policy. */
  lemma AccountBecause(c: Crypto, sp: Response, rootFP: string, trust: Trust, machine: string, st: State, now: int,
      e: PolicyError)
    requires c.parseKey(sp.rootKey) == Some(trust.root) && trust.revoked == RevokedBy(c, trust.root, sp)
    requires IsAccountFormat(sp) && SignerOf(c, sp, trust, now).Ok?
    ensures var r := CheckAccount(c, sp, trust, machine, st.version, now);
      && (r.Err? ==> 11 <= Rank(sp, r.error) && Because(c, sp, rootFP, machine, st, now, r.error))
      && (11 <= Rank(sp, e) && (r.Err? ==> Rank(sp, e) < Rank(sp, r.error)) ==>
            !Because(c, sp, rootFP, machine, st, now, e))
  {
    hide SignerOf, Opened, FreshnessExpiry, ChainOpens, HoldsDelegation, RevokedBy, ListOf, OffersMachine;
    MaySignIff(c, sp, trust, now, "");
    var ap := Bind(Opened(c, SignerOf(c, sp, trust, now).value.key, CtxAccountPolicy, sp.accountPolicy.value),
      c.accountPolicy);
    OffersOneFormat(c, sp);
    if ap.Some? {
      assert OffersAccount(c, sp, ap.value);
      assert Offered(c, sp, ap.value.account, ap.value.version);
      MaySignIff(c, sp, trust, now, ap.value.account);
    }
  }

  lemma OffersOneFormat(c: Crypto, sp: Response)
    ensures IsAccountFormat(sp) ==> forall p :: !OffersMachine(c, sp, p)
    ensures !IsAccountFormat(sp) ==> forall ap :: !OffersAccount(c, sp, ap)
  {
  }

  /** Two stale policies are one. */
  lemma OneStale(c: Crypto, sp: Response, rootFP: string, machine: string, st: State, now: int, p: Policy, q: Policy)
    requires Because(c, sp, rootFP, machine, st, now, Stale(p)) && Because(c, sp, rootFP, machine, st, now, Stale(q))
    ensures p == q
  {
    hide Opened, EffectiveExpiry, RevokedBy;
  }

  /** The refusal, or acceptance, and no other reason before it. */
  lemma VerdictBecause(c: Crypto, sp: Response, rootFP: string, machine: string, st: State, now: int, e: PolicyError)
    ensures var r := VerifyAny(c, sp, rootFP, machine, st, now);
      && (r.Err? ==> Because(c, sp, rootFP, machine, st, now, r.error))
      && ((r.Err? ==> Rank(sp, e) < Rank(sp, r.error)) ==> !Because(c, sp, rootFP, machine, st, now, e))
  {
    hide SignerOf, RootAndRevocations, CheckAccount, CheckSigned, Because;
    if st.format == "account" ==> IsAccountFormat(sp) {
      RootBecause(c, sp, rootFP, machine, st, now, e);
      if RootAndRevocations(c, sp, rootFP, st.revocationsVersion).Ok? {
        var trust := RootAndRevocations(c, sp, rootFP, st.revocationsVersion).value;
        TrustIsPinned(c, sp, rootFP, st.revocationsVersion);
        SignerBecause(c, sp, rootFP, trust, machine, st, now, e);
        if SignerOf(c, sp, trust, now).Err? {
          RefusedWithSigner(c, sp, trust, machine, st.version, now);
        } else {
          if IsAccountFormat(sp) {
            AccountBecause(c, sp, rootFP, trust, machine, st, now, e);
          } else {
            MachineBecause(c, sp, rootFP, trust, machine, st, now, e);
          }
        }
      }
    } else {
      DowngradeBecause(c, sp, rootFP, machine, st, now);
    }
  }

  lemma DowngradeBecause(c: Crypto, sp: Response, rootFP: string, machine: string, st: State, now: int)
    requires st.format == "account" && !IsAccountFormat(sp)
    ensures Because(c, sp, rootFP, machine, st, now, FormatDowngrade)
  {
  }

  lemma RefusedWithSigner(c: Crypto, sp: Response, trust: Trust, machine: string, floor: int, now: int)
    requires SignerOf(c, sp, trust, now).Err?
    ensures CheckSigned(c, sp, trust, floor, now) == Err(SignerOf(c, sp, trust, now).error)
    ensures sp.accountPolicy.Some? ==>
      CheckAccount(c, sp, trust, machine, floor, now) == Err(SignerOf(c, sp, trust, now).error)
  {
    hide SignerOf;
  }

  /** A response is refused with an error exactly when the reason it gives holds and none
      that is checked before does; a stale one names the policy it holds. */
  lemma RefusedIff(c: Crypto, sp: Response, rootFP: string, machine: string, st: State, now: int, e: PolicyError)
    ensures VerifyAny(c, sp, rootFP, machine, st, now) == Err(e) <==>
      && Because(c, sp, rootFP, machine, st, now, e)
      && forall other :: Rank(sp, other) < Rank(sp, e) ==> !Because(c, sp, rootFP, machine, st, now, other)
  {
    hide VerifyAny, Because;
    var r := VerifyAny(c, sp, rootFP, machine, st, now);
    forall other
      ensures r.Err? ==> Because(c, sp, rootFP, machine, st, now, r.error)
      ensures (r.Err? ==> Rank(sp, other) < Rank(sp, r.error)) ==> !Because(c, sp, rootFP, machine, st, now, other)
    {
      VerdictBecause(c, sp, rootFP, machine, st, now, other);
    }
    if Because(c, sp, rootFP, machine, st, now, e) && r.Err? && e.Stale? && r.error.Stale? {
      OneStale(c, sp, rootFP, machine, st, now, e.p, r.error.p);
    }
  }

  // ----- freshness statements

  /** The same response with other freshness fields. */
  predicate SameButFreshness(sp: Response, sp': Response) {
    sp' == sp.(freshness := sp'.freshness, freshnessSigner := sp'.freshnessSigner, freshnessChain := sp'.freshnessChain)
  }

  function WithoutExpiry(p: Policy): Policy { p.(krlExpires := 0) }

  /** `d` is what the root signed as a freshness delegation in this blob. */
  ghost predicate RootFreshness(c: Crypto, root: Key, b: Blob, d: FreshnessDelegation) {
    exists payload :: Opened(c, root, CtxFreshnessDelegation, b) == Some(payload)
      && c.freshnessDelegation(payload) == Some(d)
  }

  /** A root-signed delegation that lets this key vouch for this account now. */
  ghost predicate HoldsFreshness(c: Crypto, root: Key, chain: seq<Blob>, fp: string, account: string, now: int) {
    exists b, d, key ::
      && b in chain && RootFreshness(c, root, b, d) && d.account == account
      && c.parseKey(d.key) == Some(key) && c.fingerprint(key) == fp
      && (d.expires == 0 || now < d.expires)
  }

  ghost predicate HoldsSomeFreshness(c: Crypto, root: Key, b: Blob) {
    exists d :: RootFreshness(c, root, b, d)
  }

  ghost predicate FreshnessChainOpens(c: Crypto, root: Key, chain: seq<Blob>) {
    forall b :: b in chain ==> HoldsSomeFreshness(c, root, b)
  }

  lemma RootFreshnessIff(c: Crypto, root: Key, b: Blob)
    ensures forall d :: OpenFreshnessDelegation(c, root, b) == Some(d) <==> RootFreshness(c, root, b, d)
    ensures OpenFreshnessDelegation(c, root, b).Some? <==> HoldsSomeFreshness(c, root, b)
  {
    hide Opened;
    if OpenFreshnessDelegation(c, root, b).Some? {
      assert Opened(c, root, CtxFreshnessDelegation, b).Some?;
      assert RootFreshness(c, root, b, OpenFreshnessDelegation(c, root, b).value);
    }
  }

  lemma HoldsFreshnessNext(c: Crypto, root: Key, chain: seq<Blob>, b: Blob, fp: string, account: string, now: int)
    requires OpenFreshnessDelegation(c, root, b).Some?
    ensures HoldsFreshness(c, root, chain + [b], fp, account, now) <==>
      || HoldsFreshness(c, root, chain, fp, account, now)
      || DelegatesFreshness(c, OpenFreshnessDelegation(c, root, b).value, fp, account, now)
  {
    hide OpenFreshnessDelegation, RootFreshness;
    RootFreshnessIff(c, root, b);
    var d := OpenFreshnessDelegation(c, root, b).value;
    assert RootFreshness(c, root, b, d);
    assert b in chain + [b];
    assert forall b' :: b' in chain + [b] <==> b' in chain || b' == b;
  }

  lemma NoFreshnessHeld(c: Crypto, root: Key, fp: string, account: string, now: int)
    ensures !HoldsFreshness(c, root, [], fp, account, now)
  {
  }

  lemma {:induction false} FreshnessDelegatedIff(c: Crypto, root: Key, chain: seq<Blob>, fp: string, account: string,
      now: int)
    ensures var r := FreshnessDelegated(c, root, chain, fp, account, now);
      && (r.Some? <==> FreshnessChainOpens(c, root, chain))
      && (r.Some? ==> (r.value <==> HoldsFreshness(c, root, chain, fp, account, now)))
    decreases |chain|
  {
    hide OpenFreshnessDelegation, DelegatesFreshness, HoldsFreshness, HoldsSomeFreshness;
    if chain == [] {
      NoFreshnessHeld(c, root, fp, account, now);
    } else {
      var n := |chain| - 1;
      FreshnessDelegatedIff(c, root, chain[..n], fp, account, now);
      RootFreshnessIff(c, root, chain[n]);
      if OpenFreshnessDelegation(c, root, chain[n]).Some? {
        HoldsFreshnessNext(c, root, chain[..n], chain[n], fp, account, now);
      }
      assert chain == chain[..n] + [chain[n]];
    }
  }

  /** The statement names the policy in this blob: the hash of the account-policy context
      followed by its bytes. */
  ghost predicate NamesPolicy(c: Crypto, hash: string, b: Blob) {
    exists bytes :: Decode(b.payload) == Some(bytes) && hash == c.hash(Message(CtxAccountPolicy, bytes))
  }

  lemma NamesPolicyIff(c: Crypto, hash: string, b: Blob)
    ensures PolicyHash(c, b) == Some(hash) <==> NamesPolicy(c, hash, b)
  {
    hide Decode, Message;
    if PolicyHash(c, b) == Some(hash) {
      assert Decode(b.payload).Some?;
    }
  }

  /** The statement `f` counts for this policy until `exp`: an unrevoked key that the root
      lets vouch for the account signed it for this very policy, it is not from the future,
      and `exp`, at most a week after its issue, has not passed. */
  ghost predicate Vouches(c: Crypto, sp: Response, trust: Trust, ap: AccountPolicy, now: int, f: Freshness, exp: int)
    requires sp.accountPolicy.Some?
  {
    && sp.freshness.Some? && c.parseKey(sp.freshnessSigner).Some?
    && var key := c.parseKey(sp.freshnessSigner).value;
    && c.fingerprint(key) !in trust.revoked
    && FreshnessChainOpens(c, trust.root, sp.freshnessChain)
    && HoldsFreshness(c, trust.root, sp.freshnessChain, c.fingerprint(key), ap.account, now)
    && Bind(Opened(c, key, CtxFreshness, sp.freshness.value), c.freshness) == Some(f)
    && NamesPolicy(c, f.policyHash, sp.accountPolicy.value)
    && f.account == ap.account && f.group == ap.group && f.version == ap.version
    && f.issued <= now + 300 && now < exp
    && exp <= f.expires && exp <= f.issued + 604_800
    && (exp == f.expires || exp == f.issued + 604_800)
  }

  /** A statement grants an expiry exactly when it vouches for the policy until then. */
  lemma GrantedIffVouched(c: Crypto, sp: Response, trust: Trust, ap: AccountPolicy, now: int, exp: int)
    requires sp.accountPolicy.Some?
    ensures FreshnessExpiry(c, sp, trust, ap, now) == Some(exp) <==> exists f :: Vouches(c, sp, trust, ap, now, f, exp)
  {
    hide Opened, PolicyHash, FreshnessDelegated, FreshnessChainOpens, HoldsFreshness, NamesPolicy;
    if sp.freshness.Some? && c.parseKey(sp.freshnessSigner).Some? {
      var key := c.parseKey(sp.freshnessSigner).value;
      FreshnessDelegatedIff(c, trust.root, sp.freshnessChain, c.fingerprint(key), ap.account, now);
      var f := Bind(Opened(c, key, CtxFreshness, sp.freshness.value), c.freshness);
      if f.Some? {
        NamesPolicyIff(c, f.value.policyHash, sp.accountPolicy.value);
        assert FreshnessExpiry(c, sp, trust, ap, now) == Some(exp) ==> Vouches(c, sp, trust, ap, now, f.value, exp);
      }
    }
  }

  /** What each reason for ignoring a statement means. */
  ghost predicate IgnoredBecause(c: Crypto, sp: Response, trust: Trust, ap: AccountPolicy, now: int, e: FreshnessError)
    requires sp.accountPolicy.Some? && sp.freshness.Some?
  {
    if e.BadFreshnessKey? then c.parseKey(sp.freshnessSigner) == None
    else
      && c.parseKey(sp.freshnessSigner).Some?
      && var key := c.parseKey(sp.freshnessSigner).value;
      var signed := Bind(Opened(c, key, CtxFreshness, sp.freshness.value), c.freshness);
      match e
      case FreshnessKeyRevoked => c.fingerprint(key) in trust.revoked
      case BadFreshnessDelegation => !FreshnessChainOpens(c, trust.root, sp.freshnessChain)
      case FreshnessNotDelegated =>
        !HoldsFreshness(c, trust.root, sp.freshnessChain, c.fingerprint(key), ap.account, now)
      case BadStatement => signed == None
      case UnreadablePolicy => Decode(sp.accountPolicy.value.payload) == None
      case ForOtherPolicy => signed.Some?
        && (signed.value.account != ap.account || signed.value.group != ap.group || signed.value.version != ap.version
            || !NamesPolicy(c, signed.value.policyHash, sp.accountPolicy.value))
      case FromTheFuture => signed.Some? && signed.value.issued > now + 300
      case StatementExpired => signed.Some? && (now >= signed.value.expires || now >= signed.value.issued + 604_800)
      case BadFreshnessKey => true
  }

  /** The order of the checks. */
  function IgnoredRank(e: FreshnessError): nat {
    match e
    case BadFreshnessKey => 0
    case FreshnessKeyRevoked => 1
    case BadFreshnessDelegation => 2
    case FreshnessNotDelegated => 3
    case BadStatement => 4
    case UnreadablePolicy => 5
    case ForOtherPolicy => 6
    case FromTheFuture => 7
    case StatementExpired => 8
  }

  lemma IgnoredReason(c: Crypto, sp: Response, trust: Trust, ap: AccountPolicy, now: int, e: FreshnessError)
    requires sp.accountPolicy.Some? && sp.freshness.Some?
    ensures var r := FreshnessVerdict(c, sp, trust, ap, now);
      && (r.Err? ==> IgnoredBecause(c, sp, trust, ap, now, r.error))
      && ((r.Err? ==> IgnoredRank(e) < IgnoredRank(r.error)) ==> !IgnoredBecause(c, sp, trust, ap, now, e))
  {
    hide Opened, FreshnessDelegated, FreshnessChainOpens, HoldsFreshness, Decode, Message, NamesPolicy;
    if c.parseKey(sp.freshnessSigner).Some? {
      var key := c.parseKey(sp.freshnessSigner).value;
      FreshnessDelegatedIff(c, trust.root, sp.freshnessChain, c.fingerprint(key), ap.account, now);
      var f := Bind(Opened(c, key, CtxFreshness, sp.freshness.value), c.freshness);
      if f.Some? {
        NamesPolicyIff(c, f.value.policyHash, sp.accountPolicy.value);
      }
    }
  }

  /** A statement is ignored with an error exactly when the reason it gives holds and none
      that is checked before does. */
  lemma StatementIgnoredIff(c: Crypto, sp: Response, trust: Trust, ap: AccountPolicy, now: int, e: FreshnessError)
    requires sp.accountPolicy.Some? && sp.freshness.Some?
    ensures FreshnessVerdict(c, sp, trust, ap, now) == Err(e) <==>
      && IgnoredBecause(c, sp, trust, ap, now, e)
      && forall other :: IgnoredRank(other) < IgnoredRank(e) ==> !IgnoredBecause(c, sp, trust, ap, now, other)
  {
    hide FreshnessVerdict, IgnoredBecause;
    forall other
      ensures var r := FreshnessVerdict(c, sp, trust, ap, now);
        && (r.Err? ==> IgnoredBecause(c, sp, trust, ap, now, r.error))
        && ((r.Err? ==> IgnoredRank(other) < IgnoredRank(r.error)) ==> !IgnoredBecause(c, sp, trust, ap, now, other))
    {
      IgnoredReason(c, sp, trust, ap, now, other);
    }
  }

  /** One statement counts for the bytes of one account policy only, whatever responses,
      chains and agents it is shown in. */
  lemma StatementIsForOnePolicy(c: Crypto, sp: Response, trust: Trust, ap: AccountPolicy, now: int,
      sp': Response, trust': Trust, ap': AccountPolicy, now': int)
    requires Sound(c) && sp.accountPolicy.Some? && sp'.accountPolicy.Some? && sp.freshness == sp'.freshness
    requires FreshnessExpiry(c, sp, trust, ap, now).Some? && FreshnessExpiry(c, sp', trust', ap', now').Some?
    ensures Decode(sp.accountPolicy.value.payload).Some?
    ensures Decode(sp.accountPolicy.value.payload) == Decode(sp'.accountPolicy.value.payload)
  {
    hide Opened, FreshnessExpiry, FreshnessChainOpens, HoldsFreshness, NamesPolicy, Sound, Decode;
    GrantedIffVouched(c, sp, trust, ap, now, FreshnessExpiry(c, sp, trust, ap, now).value);
    GrantedIffVouched(c, sp', trust', ap', now', FreshnessExpiry(c, sp', trust', ap', now').value);
    var f :| Vouches(c, sp, trust, ap, now, f, FreshnessExpiry(c, sp, trust, ap, now).value);
    var f' :| Vouches(c, sp', trust', ap', now', f', FreshnessExpiry(c, sp', trust', ap', now').value);
    var key, key' := c.parseKey(sp.freshnessSigner).value, c.parseKey(sp'.freshnessSigner).value;
    NoCrossUse(c, key, CtxFreshness, sp.freshness.value, key', CtxFreshness, sp'.freshness.value);
    OneHashOnePolicy(c, f.policyHash, sp.accountPolicy.value, sp'.accountPolicy.value);
  }

  lemma OneHashOnePolicy(c: Crypto, hash: string, b: Blob, b': Blob)
    requires Sound(c) && NamesPolicy(c, hash, b) && NamesPolicy(c, hash, b')
    ensures Decode(b.payload).Some? && Decode(b.payload) == Decode(b'.payload)
  {
    hide Decode, Message;
    MessageUnambiguous(CtxAccountPolicy, Decode(b.payload).value, CtxAccountPolicy, Decode(b'.payload).value);
  }

  lemma FreshnessBound(c: Crypto, sp: Response, trust: Trust, ap: AccountPolicy, now: int)
    requires sp.accountPolicy.Some? && FreshnessExpiry(c, sp, trust, ap, now).Some?
    ensures now < FreshnessExpiry(c, sp, trust, ap, now).value <= now + MAX_FRESHNESS_CLOCK_SKEW + MAX_FRESHNESS_WINDOW
  {
    hide Opened, FreshnessDelegated, PolicyHash;
  }

  /** What the freshness fields can change in any response: the expiry of an account
      policy, and with it whether that policy is stale; nothing else about the verdict, and
      nothing at all in the per-machine format. */
  lemma FreshnessNonInterference(c: Crypto, sp: Response, sp': Response, rootFP: string, machine: string, st: State,
      now: int)
    requires SameButFreshness(sp, sp')
    ensures var r, r' := VerifyAny(c, sp, rootFP, machine, st, now), VerifyAny(c, sp', rootFP, machine, st, now);
      var held := IsAccountFormat(sp) && (r.Ok? || r.error.Stale?);
      && (!held ==> r' == r)
      && (held ==> r'.Ok? || r'.error.Stale?)
      && (held ==>
            var p := if r.Ok? then r.value else r.error.p;
            var p' := if r'.Ok? then r'.value else r'.error.p;
            WithoutExpiry(p) == WithoutExpiry(p'))
  {
    hide RootAndRevocations, FreshnessExpiry, CheckContent, CheckSigned;
    RootIgnoresFreshness(c, sp, sp', rootFP, st.revocationsVersion);
    if RootAndRevocations(c, sp, rootFP, st.revocationsVersion).Ok? {
      var trust := RootAndRevocations(c, sp, rootFP, st.revocationsVersion).value;
      if IsAccountFormat(sp) {
        ContentIgnoresFreshness(c, sp, sp', trust, machine, st.version, now);
      } else {
        SignedIgnoresFreshness(c, sp, sp', trust, st.version, now);
      }
    }
  }

  lemma SignedIgnoresFreshness(c: Crypto, sp: Response, sp': Response, trust: Trust, floor: int, now: int)
    requires SameButFreshness(sp, sp')
    ensures CheckSigned(c, sp, trust, floor, now) == CheckSigned(c, sp', trust, floor, now)
  {
    hide Opened, LiveAccounts, CAKeysParse;
  }

  lemma RootIgnoresFreshness(c: Crypto, sp: Response, sp': Response, rootFP: string, floor: int)
    requires SameButFreshness(sp, sp')
    ensures RootAndRevocations(c, sp, rootFP, floor) == RootAndRevocations(c, sp', rootFP, floor)
  {
    hide OpenRevocations;
  }

  lemma ContentIgnoresFreshness(c: Crypto, sp: Response, sp': Response, trust: Trust, machine: string, floor: int,
      now: int)
    requires SameButFreshness(sp, sp') && sp.accountPolicy.Some?
    ensures CheckContent(c, sp, trust, machine, floor, now) == CheckContent(c, sp', trust, machine, floor, now)
    ensures CheckContent(c, sp, trust, machine, floor, now).Ok? ==>
      machine in CheckContent(c, sp, trust, machine, floor, now).value.machines
  {
    hide Opened, LiveAccounts, CAKeysParse;
  }

  /** The expiry of an accepted account policy lies between the device-signed expiry
      and that expiry or the longest one a statement can give at this moment. */
  lemma FreshnessExpiryBounds(c: Crypto, sp: Response, rootFP: string, machine: string, st: State, now: int,
      ap: AccountPolicy)
    requires IsAccountFormat(sp) && VerifyAny(c, sp, rootFP, machine, st, now).Ok?
    requires c.parseKey(sp.signer).Some?
    requires Bind(Opened(c, c.parseKey(sp.signer).value, CtxAccountPolicy, sp.accountPolicy.value), c.accountPolicy)
      == Some(ap)
    ensures var p := VerifyAny(c, sp, rootFP, machine, st, now).value;
      ap.expires <= p.krlExpires <= Max(ap.expires, now + MAX_FRESHNESS_CLOCK_SKEW + MAX_FRESHNESS_WINDOW)
  {
    hide RootAndRevocations, FreshnessExpiry, Opened, LiveAccounts, CAKeysParse;
    var trust := RootAndRevocations(c, sp, rootFP, st.revocationsVersion).value;
    if FreshnessExpiry(c, sp, trust, ap, now).Some? {
      FreshnessBound(c, sp, trust, ap, now);
    }
  }

  // ----- floors and revocations

  /** `later` has floors at least as high, and has not left the account format. */
  predicate FloorsRaised(st: State, later: State) {
    && st.version <= later.version && st.revocationsVersion <= later.revocationsVersion
    && (st.format == FORMAT_ACCOUNT ==> later.format == FORMAT_ACCOUNT)
  }

  /** Higher floors accept no more, and accept it as the same policy. */
  lemma FloorsMonotone(c: Crypto, sp: Response, rootFP: string, machine: string, st: State, later: State, now: int)
    requires FloorsRaised(st, later) && VerifyAny(c, sp, rootFP, machine, later, now).Ok?
    ensures VerifyAny(c, sp, rootFP, machine, st, now) == VerifyAny(c, sp, rootFP, machine, later, now)
  {
    hide SignerOf, Opened, FreshnessExpiry, CAKeysParse, OpenRevocations;
  }

  /** Refusals that come from the saved state rather than from the response alone. */
  predicate RefusedByState(e: PolicyError) {
    e.PolicyReplay? || e.RevocationReplay? || e.RevocationStripped? || e.FormatDowngrade?
  }

  /** A response refused for a floor, a stripped list or a format downgrade is refused
      in every state with higher floors, at every time. */
  lemma RefusalPersists(c: Crypto, sp: Response, rootFP: string, machine: string, st: State, now: int, later: State,
      when: int)
    requires VerifyAny(c, sp, rootFP, machine, st, now).Err?
    requires RefusedByState(VerifyAny(c, sp, rootFP, machine, st, now).error)
    requires FloorsRaised(st, later)
    ensures VerifyAny(c, sp, rootFP, machine, later, when).Err?
  {
    hide LiveAccounts, Opened, FreshnessExpiry, CAKeysParse, OpenRevocations;
    if RootAndRevocations(c, sp, rootFP, st.revocationsVersion).Ok? {
      var trust := RootAndRevocations(c, sp, rootFP, st.revocationsVersion).value;
      SignerRefusals(c, sp, trust, now);
      SignerRefusals(c, sp, trust, when);
    }
  }

  lemma SignerRefusals(c: Crypto, sp: Response, trust: Trust, now: int)
    ensures SignerOf(c, sp, trust, now).Err? ==> !RefusedByState(SignerOf(c, sp, trust, now).error)
    ensures SignerOf(c, sp, trust, now).Ok? ==> c.parseKey(sp.signer) == Some(SignerOf(c, sp, trust, now).value.key)
  {
    hide ChainAccounts;
  }

  lemma FreshnessUnderMoreRevocations(c: Crypto, sp: Response, trust: Trust, more: Trust, ap: AccountPolicy, now: int)
    requires sp.accountPolicy.Some? && trust.root == more.root && trust.revoked <= more.revoked
    ensures FreshnessExpiry(c, sp, more, ap, now).Some? ==>
      FreshnessExpiry(c, sp, trust, ap, now) == FreshnessExpiry(c, sp, more, ap, now)
  {
    hide Opened, FreshnessDelegated, PolicyHash;
  }

  /** Revoking more fingerprints accepts no more: what is accepted under the larger
      set is accepted under the smaller, the same but for a possibly later expiry. */
  lemma RevocationMonotone(c: Crypto, sp: Response, trust: Trust, more: Trust, machine: string, floor: int, now: int)
    requires trust.root == more.root && trust.revoked <= more.revoked && now >= 0
    ensures CheckSigned(c, sp, more, floor, now).Ok? ==>
      CheckSigned(c, sp, trust, floor, now) == CheckSigned(c, sp, more, floor, now)
    ensures IsAccountFormat(sp) && CheckAccount(c, sp, more, machine, floor, now).Ok? ==>
      var r, r' := CheckAccount(c, sp, trust, machine, floor, now), CheckAccount(c, sp, more, machine, floor, now);
      && r.Ok? && WithoutExpiry(r.value) == WithoutExpiry(r'.value)
      && r.value.krlExpires >= r'.value.krlExpires
  {
    hide LiveAccounts, Opened, FreshnessExpiry, CAKeysParse;
    if IsAccountFormat(sp) && CheckContent(c, sp, more, machine, floor, now).Ok? {
      FreshnessUnderMoreRevocations(c, sp, trust, more, CheckContent(c, sp, more, machine, floor, now).value, now);
    }
  }
}
