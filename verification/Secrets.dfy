/** Sign-then-seal: who an agent trusts to sign secrets, and what it accepts as the value
    of a sealed secret. Text is what decryption gives; JSON keeps only valid UTF-8. */
module Secrets {
  import opened Base64
  import opened Gf256
  import opened Prelude
  import opened SignedPolicy
  import opened PolicyTheorems

  const SIGNED_PREFIX := "p3sig-signed-secret-v1\n"
  const KEY_LEN := 32

  datatype SignedSecret = SignedSecret(
    account: string, secretID: string, name: string, value: string, recipient: string, issued: int)

  datatype Envelope = Envelope(signer: string, secret: Blob)

  /** A secret's name, sealed next to its value. */
  datatype Meta = Meta(labelText: string, provider: string)

  /** Sealed boxes between Ed25519 keys (the number is the sealer's randomness), JSON,
      the fingerprint of a machine key, and what JSON makes of text that is not UTF-8. */
  datatype Sealing = Sealing(
    pub: nat -> seq<byte>,
    seal: (string, seq<byte>, nat) -> Option<string>,
    open: (string, nat) -> Option<string>,
    machineFP: seq<byte> -> string,
    scrub: string -> string,
    encodeMeta: Meta -> string,
    decodeMeta: string -> Option<Meta>,
    encodeEnvelope: Envelope -> string,
    decodeEnvelope: string -> Option<Envelope>,
    decodeSecret: seq<byte> -> Option<SignedSecret>)

  predicate Utf8(s: Sealing, text: string) {
    s.scrub(text) == text
  }

  predicate Utf8Meta(s: Sealing, m: Meta) {
    Utf8(s, m.labelText) && Utf8(s, m.provider)
  }

  predicate Utf8Envelope(s: Sealing, e: Envelope) {
    Utf8(s, e.signer) && Utf8(s, e.secret.payload) && Utf8(s, e.secret.sig)
  }

  function Scrubbed(s: Sealing, x: SignedSecret): SignedSecret {
    SignedSecret(s.scrub(x.account), s.scrub(x.secretID), s.scrub(x.name), s.scrub(x.value), s.scrub(x.recipient),
      x.issued)
  }

  /** What is assumed: the holder of a key opens what was sealed to it, a sealed box is not
      the empty text, fingerprints are UTF-8 and do not collide, decoding JSON undoes encoding up to invalid UTF-8, and
      what JSON decodes to is valid. */
  ghost predicate SoundSealing(s: Sealing) {
    && (forall text, k, coin :: s.seal(text, s.pub(k), coin).Some? ==>
          s.open(s.seal(text, s.pub(k), coin).value, k) == Some(text))
    && (forall text, key, coin :: s.seal(text, key, coin) != Some(""))
    && (forall k :: |s.pub(k)| == KEY_LEN)
    && (forall a, b :: s.machineFP(a) == s.machineFP(b) ==> a == b)
    && (forall a :: Utf8(s, s.machineFP(a)))
    && (forall m :: s.decodeMeta(s.encodeMeta(m)) == Some(Meta(s.scrub(m.labelText), s.scrub(m.provider))))
    && (forall j :: s.decodeMeta(j).Some? ==> Utf8Meta(s, s.decodeMeta(j).value))
    && (forall e :: Utf8Envelope(s, e) ==> s.decodeEnvelope(s.encodeEnvelope(e)) == Some(e))
  }

  // ----- trust

  datatype SecretTrust = SecretTrust(root: Key, chain: seq<Blob>, revoked: set<string>)

  datatype SecretError =
    | Untrusted(e: PolicyError) | NoName | NotOpened | NoTrust | BadEnvelope | BadSignerKey | BadSignature
    | WrongAccount | WrongSecret | WrongName | WrongMachine | Unsigned | SignatureRequired

  /** newSecretTrust: like the policy's root check, but with no floor and no test for an
      empty pinned fingerprint. */
  function NewTrust(c: Crypto, sp: Response, rootFP: string): Result<SecretTrust, SecretError> {
    match c.parseKey(sp.rootKey)
    case None => Err(Untrusted(BadRootKey))
    case Some(root) =>
      if c.fingerprint(root) != rootFP then Err(Untrusted(WrongRoot))
      else
        match sp.revocations
        case None => Ok(SecretTrust(root, sp.chain, {}))
        case Some(b) =>
          match OpenRevocations(c, root, b)
          case None => Err(Untrusted(BadRevocations))
          case Some(r) => Ok(SecretTrust(root, sp.chain, set fp | fp in r.revoked))
  }

  /** It trusts what the policy check trusts at any floor; a list too old for the policy
      check, or one stripped off, is trusted all the same. */
  lemma TrustHasNoFloor(c: Crypto, sp: Response, rootFP: string, floor: int)
    requires rootFP != ""
    ensures RootAndRevocations(c, sp, rootFP, floor).Ok? ==>
      var t := RootAndRevocations(c, sp, rootFP, floor).value;
      NewTrust(c, sp, rootFP) == Ok(SecretTrust(t.root, sp.chain, t.revoked))
    ensures RootAndRevocations(c, sp, rootFP, floor).Err? ==>
      var e := RootAndRevocations(c, sp, rootFP, floor).error;
      if e == RevocationReplay || e == RevocationStripped then NewTrust(c, sp, rootFP).Ok?
      else NewTrust(c, sp, rootFP) == Err(Untrusted(e))
  {
    hide OpenRevocations;
  }

  /** delegatedAccounts on values. */
  function DelegatedAccounts(c: Crypto, t: SecretTrust, signerFP: string, now: int): Result<set<string>, PolicyError> {
    if signerFP in t.revoked then Err(SignerRevoked) else LiveAccounts(c, t.root, t.chain, signerFP, now)
  }

  /** delegatedAccounts */
  method LiveSigner(c: Crypto, t: SecretTrust, signerFP: string, now: int) returns (r: Result<set<string>, PolicyError>)
    ensures r == DelegatedAccounts(c, t, signerFP, now)
  {
    hide OpenDelegation;
    if signerFP in t.revoked {
      return Err(SignerRevoked);
    }
    var accounts: set<string> := {};
    for i := 0 to |t.chain|
      invariant ChainAccounts(c, t.root, t.chain[..i], signerFP, now) == Some(accounts)
    {
      assert t.chain[..i + 1][..i] == t.chain[..i];
      var d := OpenDelegation(c, t.root, t.chain[i]);
      if d.None? {
        ChainPrefix(c, t.root, t.chain, signerFP, now, i + 1);
        return Err(BadDelegation);
      }
      var key := c.parseKey(d.value.deviceKey);
      if key.None? || c.fingerprint(key.value) != signerFP {
        continue;
      }
      if d.value.expires != 0 && now >= d.value.expires {
        continue;
      }
      accounts := accounts + {d.value.account};
    }
    assert t.chain[..|t.chain|] == t.chain;
    if |accounts| == 0 {
      return Err(NoLiveDelegation);
    }
    r := Ok(accounts);
  }

  // ----- opening a value

  function OpenSecret(c: Crypto, s: Sealing, key: Key, b: Blob): Option<SignedSecret> {
    Bind(Opened(c, key, CtxSecret, b), s.decodeSecret)
  }

  predicate IsSigned(plain: string) {
    SIGNED_PREFIX <= plain
  }

  /** openSecretValue; an unsigned value is the error Unsigned. */
  function OpenValue(c: Crypto, s: Sealing, plain: string, secretID: string, name: string, recipientFP: string,
      trust: Option<SecretTrust>, now: int): Result<string, SecretError>
  {
    if !IsSigned(plain) then Err(Unsigned)
    else if trust.None? then Err(NoTrust)
    else
      match s.decodeEnvelope(plain[|SIGNED_PREFIX|..])
      case None => Err(BadEnvelope)
      case Some(env) =>
        match c.parseKey(env.signer)
        case None => Err(BadSignerKey)
        case Some(signer) =>
          match DelegatedAccounts(c, trust.value, c.fingerprint(signer), now)
          case Err(e) => Err(Untrusted(e))
          case Ok(accounts) =>
            match OpenSecret(c, s, signer, env.secret)
            case None => Err(BadSignature)
            case Some(x) =>
              if x.account !in accounts then Err(WrongAccount)
              else if x.secretID != secretID then Err(WrongSecret)
              else if x.name != name then Err(WrongName)
              else if x.recipient != recipientFP then Err(WrongMachine)
              else Ok(x.value)
  }

  /** acceptSecretValue: the value, and whether it was unsigned. */
  function AcceptValue(c: Crypto, s: Sealing, plain: string, secretID: string, name: string, recipientFP: string,
      trust: Option<SecretTrust>, now: int, requireSigned: bool): Result<(string, bool), SecretError>
  {
    match OpenValue(c, s, plain, secretID, name, recipientFP, trust, now)
    case Ok(value) => Ok((value, false))
    case Err(e) =>
      if e != Unsigned then Err(e)
      else if requireSigned then Err(SignatureRequired)
      else Ok((plain, true))
  }

  /** `x` is what this key signed as a secret in this blob. */
  ghost predicate SignedBy(c: Crypto, s: Sealing, key: Key, b: Blob, x: SignedSecret) {
    exists payload :: Opened(c, key, CtxSecret, b) == Some(payload) && s.decodeSecret(payload) == Some(x)
  }

  lemma SignedByIff(c: Crypto, s: Sealing, key: Key, b: Blob)
    ensures forall x :: OpenSecret(c, s, key, b) == Some(x) <==> SignedBy(c, s, key, b, x)
  {
    hide Opened;
    if OpenSecret(c, s, key, b).Some? {
      assert Opened(c, key, CtxSecret, b).Some?;
      assert SignedBy(c, s, key, b, OpenSecret(c, s, key, b).value);
    }
  }

  /** The text is an envelope signed by a live, unrevoked device, under a chain that opens,
      over exactly this value for this secret, under this name, for this machine. */
  ghost predicate Carries(c: Crypto, s: Sealing, plain: string, trust: SecretTrust, now: int,
    secretID: string, name: string, recipientFP: string, value: string)
  {
    exists env, signer, x ::
      && "p3sig-signed-secret-v1\n" <= plain && s.decodeEnvelope(plain[|"p3sig-signed-secret-v1\n"|..]) == Some(env)
      && c.parseKey(env.signer) == Some(signer) && SignedBy(c, s, signer, env.secret, x)
      && x.secretID == secretID && x.name == name && x.recipient == recipientFP && x.value == value
      && c.fingerprint(signer) !in trust.revoked && ChainOpens(c, trust.root, trust.chain)
      && HoldsDelegation(c, trust.root, trust.chain, c.fingerprint(signer), x.account, now)
  }

  lemma DelegatedIff(c: Crypto, t: SecretTrust, signerFP: string, now: int, account: string)
    ensures var r := DelegatedAccounts(c, t, signerFP, now);
      r.Ok? && account in r.value <==>
        signerFP !in t.revoked && ChainOpens(c, t.root, t.chain)
          && HoldsDelegation(c, t.root, t.chain, signerFP, account, now)
  {
    hide ChainAccounts, ChainOpens, HoldsDelegation;
    ChainOpensIff(c, t.root, t.chain, signerFP, now);
    if ChainOpens(c, t.root, t.chain) {
      AccountsAreDelegated(c, t.root, t.chain, signerFP, now, account);
    }
  }

  /** With signatures required, a text is accepted exactly when it carries such a signed
      value, and is never flagged as unsigned; without, every unsigned text is also
      accepted, flagged, as it stands. */
  lemma AcceptedIffCarried(c: Crypto, s: Sealing, plain: string, secretID: string, name: string, recipientFP: string,
    trust: Option<SecretTrust>, now: int, requireSigned: bool, value: string, unsigned: bool)
    ensures var r := AcceptValue(c, s, plain, secretID, name, recipientFP, trust, now, requireSigned);
      r == Ok((value, unsigned)) <==>
        if unsigned then !requireSigned && !IsSigned(plain) && value == plain
        else trust.Some? && Carries(c, s, plain, trust.value, now, secretID, name, recipientFP, value)
  {
    hide OpenSecret, SignedBy, HoldsDelegation, DelegatedAccounts, ChainOpens;
    if IsSigned(plain) && trust.Some? && s.decodeEnvelope(plain[|SIGNED_PREFIX|..]).Some? {
      var env := s.decodeEnvelope(plain[|SIGNED_PREFIX|..]).value;
      if c.parseKey(env.signer).Some? {
        var signer := c.parseKey(env.signer).value;
        SignedByIff(c, s, signer, env.secret);
        if OpenSecret(c, s, signer, env.secret).Some? {
          var x := OpenSecret(c, s, signer, env.secret).value;
          DelegatedIff(c, trust.value, c.fingerprint(signer), now, x.account);
          assert SignedBy(c, s, signer, env.secret, x);
        }
      }
    }
  }

  /** What each refusal of a value means. */
  ghost predicate ValueReason(c: Crypto, s: Sealing, plain: string, secretID: string, name: string, recipientFP: string,
    trust: Option<SecretTrust>, now: int, requireSigned: bool, e: SecretError)
  {
    var signed := "p3sig-signed-secret-v1\n" <= plain;
    match e
    case SignatureRequired => requireSigned && !signed
    case NoTrust => signed && trust == None
    case _ =>
      && signed && trust.Some?
      && var env := s.decodeEnvelope(plain[|"p3sig-signed-secret-v1\n"|..]);
      if e.BadEnvelope? then env == None
      else
        && env.Some?
        && var signer := c.parseKey(env.value.signer);
        if e.BadSignerKey? then signer == None
        else
          && signer.Some?
          && SignerReason(c, s, env.value.secret, signer.value, secretID, name, recipientFP, trust.value, now, e)
  }

  /** Those that lie in what the signer of an envelope may sign, and did sign. */
  ghost predicate SignerReason(c: Crypto, s: Sealing, b: Blob, signer: Key, secretID: string, name: string,
    recipientFP: string, trust: SecretTrust, now: int, e: SecretError)
  {
    var fp := c.fingerprint(signer);
    match e
    case Untrusted(SignerRevoked) => fp in trust.revoked
    case Untrusted(BadDelegation) => !ChainOpens(c, trust.root, trust.chain)
    case Untrusted(NoLiveDelegation) =>
      forall account :: !HoldsDelegation(c, trust.root, trust.chain, fp, account, now)
    case BadSignature => forall x :: !SignedBy(c, s, signer, b, x)
    case WrongAccount => exists x ::
      SignedBy(c, s, signer, b, x) && !HoldsDelegation(c, trust.root, trust.chain, fp, x.account, now)
    case WrongSecret => exists x :: SignedBy(c, s, signer, b, x) && x.secretID != secretID
    case WrongName => exists x :: SignedBy(c, s, signer, b, x) && x.name != name
    case WrongMachine => exists x :: SignedBy(c, s, signer, b, x) && x.recipient != recipientFP
    case _ => false
  }

  /** The order of the checks. */
  function ValueRank(e: SecretError): nat {
    match e
    case SignatureRequired => 0
    case NoTrust => 1
    case BadEnvelope => 2
    case BadSignerKey => 3
    case Untrusted(SignerRevoked) => 4
    case Untrusted(BadDelegation) => 5
    case Untrusted(NoLiveDelegation) => 6
    case BadSignature => 7
    case WrongAccount => 8
    case WrongSecret => 9
    case WrongName => 10
    case WrongMachine => 11
    case _ => 12
  }

  lemma DelegatedBecause(c: Crypto, s: Sealing, b: Blob, signer: Key, secretID: string, name: string,
      recipientFP: string, trust: SecretTrust, now: int, e: SecretError)
    ensures var r := DelegatedAccounts(c, trust, c.fingerprint(signer), now);
      && (r.Err? ==>
            && 4 <= ValueRank(Untrusted(r.error)) < 7
            && SignerReason(c, s, b, signer, secretID, name, recipientFP, trust, now, Untrusted(r.error)))
      && (4 <= ValueRank(e) < (if r.Err? then ValueRank(Untrusted(r.error)) else 7) ==>
            !SignerReason(c, s, b, signer, secretID, name, recipientFP, trust, now, e))
  {
    hide ChainAccounts, ChainOpens, HoldsDelegation, SignedBy;
    var fp := c.fingerprint(signer);
    ChainOpensIff(c, trust.root, trust.chain, fp, now);
    if ChainOpens(c, trust.root, trust.chain) {
      forall account
        ensures account in ChainAccounts(c, trust.root, trust.chain, fp, now).value <==>
          HoldsDelegation(c, trust.root, trust.chain, fp, account, now)
      {
        AccountsAreDelegated(c, trust.root, trust.chain, fp, now, account);
      }
    }
  }

  /** From the signer of the envelope on. */
  lemma SignedBecause(c: Crypto, s: Sealing, plain: string, secretID: string, name: string, recipientFP: string,
      trust: SecretTrust, now: int, requireSigned: bool, env: Envelope, signer: Key, e: SecretError)
    requires IsSigned(plain) && s.decodeEnvelope(plain[|SIGNED_PREFIX|..]) == Some(env)
    requires c.parseKey(env.signer) == Some(signer)
    ensures var r := AcceptValue(c, s, plain, secretID, name, recipientFP, Some(trust), now, requireSigned);
      && (r.Err? ==>
            && 4 <= ValueRank(r.error) < 12
            && SignerReason(c, s, env.secret, signer, secretID, name, recipientFP, trust, now, r.error))
      && (4 <= ValueRank(e) && (r.Err? ==> ValueRank(e) < ValueRank(r.error)) ==>
            !SignerReason(c, s, env.secret, signer, secretID, name, recipientFP, trust, now, e))
  {
    hide OpenSecret, SignedBy, HoldsDelegation, DelegatedAccounts, ChainOpens;
    SignedByIff(c, s, signer, env.secret);
    DelegatedBecause(c, s, env.secret, signer, secretID, name, recipientFP, trust, now, e);
    var x := OpenSecret(c, s, signer, env.secret);
    if x.Some? {
      assert SignedBy(c, s, signer, env.secret, x.value);
      WrongAccountIff(c, trust, c.fingerprint(signer), now, x.value.account);
    }
  }

  lemma WrongAccountIff(c: Crypto, t: SecretTrust, signerFP: string, now: int, account: string)
    ensures var r := DelegatedAccounts(c, t, signerFP, now);
      r.Ok? ==> (account in r.value <==> HoldsDelegation(c, t.root, t.chain, signerFP, account, now))
  {
    hide ChainAccounts, HoldsDelegation;
    if ChainAccounts(c, t.root, t.chain, signerFP, now).Some? {
      AccountsAreDelegated(c, t.root, t.chain, signerFP, now, account);
    }
  }

  /** The refusal of a value, or its acceptance, and no other reason before it. */
  lemma ValueBecause(c: Crypto, s: Sealing, plain: string, secretID: string, name: string, recipientFP: string,
      trust: Option<SecretTrust>, now: int, requireSigned: bool, e: SecretError)
    ensures var r := AcceptValue(c, s, plain, secretID, name, recipientFP, trust, now, requireSigned);
      && (r.Err? ==>
            && ValueRank(r.error) < 12
            && ValueReason(c, s, plain, secretID, name, recipientFP, trust, now, requireSigned, r.error))
      && ((r.Err? ==> ValueRank(e) < ValueRank(r.error)) ==>
            !ValueReason(c, s, plain, secretID, name, recipientFP, trust, now, requireSigned, e))
  {
    hide OpenSecret, SignerReason, DelegatedAccounts;
    OtherwiseNoReason(c, s, secretID, name, recipientFP, now, e);
    if IsSigned(plain) && trust.Some? && s.decodeEnvelope(plain[|SIGNED_PREFIX|..]).Some? {
      var env := s.decodeEnvelope(plain[|SIGNED_PREFIX|..]).value;
      if c.parseKey(env.signer).Some? {
        var signer := c.parseKey(env.signer).value;
        SignedBecause(c, s, plain, secretID, name, recipientFP, trust.value, now, requireSigned, env, signer, e);
      }
    }
  }

  lemma OtherwiseNoReason(c: Crypto, s: Sealing, secretID: string, name: string, recipientFP: string, now: int,
      e: SecretError)
    ensures ValueRank(e) < 4 || ValueRank(e) == 12 ==>
      forall b, signer, trust :: !SignerReason(c, s, b, signer, secretID, name, recipientFP, trust, now, e)
  {
    hide SignedBy, HoldsDelegation, ChainOpens;
  }

  /** A value is refused with an error exactly when the reason it gives holds and none that
      is checked before does. */
  lemma ValueRefusedIff(c: Crypto, s: Sealing, plain: string, secretID: string, name: string, recipientFP: string,
      trust: Option<SecretTrust>, now: int, requireSigned: bool, e: SecretError)
    ensures AcceptValue(c, s, plain, secretID, name, recipientFP, trust, now, requireSigned) == Err(e) <==>
      && ValueReason(c, s, plain, secretID, name, recipientFP, trust, now, requireSigned, e)
      && forall other :: ValueRank(other) < ValueRank(e) ==>
           !ValueReason(c, s, plain, secretID, name, recipientFP, trust, now, requireSigned, other)
  {
    hide AcceptValue, ValueReason;
    var r := AcceptValue(c, s, plain, secretID, name, recipientFP, trust, now, requireSigned);
    forall other
      ensures r.Err? ==>
        && ValueRank(r.error) < 12
        && ValueReason(c, s, plain, secretID, name, recipientFP, trust, now, requireSigned, r.error)
      ensures (r.Err? ==> ValueRank(other) < ValueRank(r.error)) ==>
        !ValueReason(c, s, plain, secretID, name, recipientFP, trust, now, requireSigned, other)
    {
      ValueBecause(c, s, plain, secretID, name, recipientFP, trust, now, requireSigned, other);
    }
    if ValueReason(c, s, plain, secretID, name, recipientFP, trust, now, requireSigned, e) {
      ReasonHasRank(c, s, plain, secretID, name, recipientFP, trust, now, requireSigned, e);
    }
  }

  lemma ReasonHasRank(c: Crypto, s: Sealing, plain: string, secretID: string, name: string, recipientFP: string,
      trust: Option<SecretTrust>, now: int, requireSigned: bool, e: SecretError)
    requires ValueReason(c, s, plain, secretID, name, recipientFP, trust, now, requireSigned, e)
    ensures ValueRank(e) < 12
  {
    hide SignedBy, HoldsDelegation, ChainOpens;
  }

  /** One opened text is accepted for one secret, name and machine key only, with one
      value, whatever the trust and the time. */
  lemma NotTransferable(c: Crypto, s: Sealing, plain: string, id: string, name: string, machine: seq<byte>,
      trust: Option<SecretTrust>, now: int, id': string, name': string, machine': seq<byte>,
      trust': Option<SecretTrust>, now': int)
    requires SoundSealing(s)
    requires AcceptValue(c, s, plain, id, name, s.machineFP(machine), trust, now, true).Ok?
    requires AcceptValue(c, s, plain, id', name', s.machineFP(machine'), trust', now', true).Ok?
    ensures id == id' && name == name' && machine == machine'
    ensures AcceptValue(c, s, plain, id, name, s.machineFP(machine), trust, now, true) ==
      AcceptValue(c, s, plain, id', name', s.machineFP(machine'), trust', now', true)
  {
    hide IsSigned, OpenSecret, DelegatedAccounts;
  }

  /** More revoked fingerprints make nothing acceptable that was not, signed or not. */
  lemma RevokingAcceptsNoMore(c: Crypto, s: Sealing, plain: string, id: string, name: string, recipientFP: string,
      trust: SecretTrust, more: SecretTrust, now: int, requireSigned: bool)
    requires more == trust.(revoked := more.revoked) && trust.revoked <= more.revoked
    requires AcceptValue(c, s, plain, id, name, recipientFP, Some(more), now, requireSigned).Ok?
    ensures AcceptValue(c, s, plain, id, name, recipientFP, Some(trust), now, requireSigned) ==
      AcceptValue(c, s, plain, id, name, recipientFP, Some(more), now, requireSigned)
  {
    hide IsSigned, OpenSecret, LiveAccounts;
  }
}
