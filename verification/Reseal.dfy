/** Re-sealing the account's secrets: every machine copy becomes an envelope signed by a
    delegated device, in one upload, and the machines then accept what it holds. */
module Reseal {
  import opened Base64
  import opened Gf256
  import opened Prelude
  import opened SignedPolicy
  import opened Secrets
  import opened Text

  /** The signing device: its key, its authorized_keys line, and signing. */
  datatype Device = Device(key: Key, line: string, sign: SignedSecret -> Option<Blob>)

  /** The device's line parses to its key, and what it signs opens under that key. */
  ghost predicate SoundDevice(c: Crypto, s: Sealing, d: Device) {
    && c.parseKey(d.line) == Some(d.key) && Utf8(s, d.line)
    && forall x :: d.sign(x).Some? ==>
      && OpenSecret(c, s, d.key, d.sign(x).value) == Some(Scrubbed(s, x))
      && Utf8(s, d.sign(x).value.payload) && Utf8(s, d.sign(x).value.sig)
  }

  // ----- the server's work list

  datatype Missing = Missing(keyID: string, publicKey: string)

  datatype Copy = Copy(enc: string, meta: string)

  datatype Work = Work(secretID: string, missing: seq<Missing>, copies: map<string, Copy>)

  datatype NewCopy = NewCopy(secretID: string, keyID: string, enc: string, meta: string)

  datatype Delegated = Delegated(deviceFP: string, revoked: bool, expires: int)

  datatype PolicyStatus = PolicyStatus(account: string, delegations: seq<Delegated>)

  datatype ResealError = NotFetched | NoDelegation | Nested(id: string) | BadMachineKey(keyID: string) | NotSealed
    | NotSigned | NotSaved

  /** What the server answers, and the uploads it has accepted. */
  class Server {
    const status: Option<PolicyStatus>
    const ownKeys: Option<seq<string>>
    const work: Option<seq<Work>>
    const saves: bool
    var uploads: seq<seq<NewCopy>>

    constructor (status: Option<PolicyStatus>, ownKeys: Option<seq<string>>, work: Option<seq<Work>>, saves: bool)
      ensures this.status == status && this.ownKeys == ownKeys && this.work == work && this.saves == saves
      ensures uploads == []
    {
      this.status, this.ownKeys, this.work, this.saves := status, ownKeys, work, saves;
      uploads := [];
    }

    method Save(copies: seq<NewCopy>) returns (ok: bool)
      modifies this
      ensures ok == saves && uploads == if ok then old(uploads) + [copies] else old(uploads)
    {
      ok := saves;
      if ok {
        uploads := uploads + [copies];
      }
    }
  }

  // ----- sealing and opening

  /** sealForKey */
  function SealForKey(s: Sealing, text: string, publicKey: string, coin: nat): Option<string> {
    match Decode(TrimSpace(publicKey))
    case None => None
    case Some(raw) => if |raw| != KEY_LEN then None else s.seal(text, raw, coin)
  }

  /** openSecretName */
  function OpenName(s: Sealing, sealedMeta: string, key: nat): Option<Meta> {
    if sealedMeta == "" then None
    else match s.open(sealedMeta, key) case None => None case Some(j) => s.decodeMeta(j)
  }

  datatype OpenedSecret = OpenedSecret(value: string, meta: Meta)

  /** Both halves of a copy open, to this. */
  predicate OpensAs(s: Sealing, copy: Copy, key: nat, o: OpenedSecret) {
    OpenName(s, copy.meta, key) == Some(o.meta) && s.open(copy.enc, key) == Some(o.value)
  }

  /** What one of the account's own copies opens to. */
  ghost predicate OpensTo(s: Sealing, w: Work, key: nat, o: OpenedSecret) {
    exists id :: id in w.copies && OpensAs(s, w.copies[id], key, o)
  }

  /** The first copy, in no particular order, whose name and value both open. */
  method OpenAny(s: Sealing, w: Work, key: nat) returns (o: Option<OpenedSecret>)
    ensures o.Some? ==> OpensTo(s, w, key, o.value)
    ensures o.None? ==> forall x :: !OpensTo(s, w, key, x)
  {
    var rest := w.copies.Keys;
    while rest != {}
      invariant rest <= w.copies.Keys
      invariant forall id, x :: id in w.copies && id !in rest ==> !OpensAs(s, w.copies[id], key, x)
    {
      var id :| id in rest;
      rest := rest - {id};
      var meta := OpenName(s, w.copies[id].meta, key);
      if meta.None? {
        continue;
      }
      var value := s.open(w.copies[id].enc, key);
      if value.Some? {
        return Some(OpenedSecret(value.value, meta.value));
      }
    }
    o := None;
  }

  // ----- what an upload must hold

  /** `box` is `text` sealed to this public key. */
  ghost predicate Seals(s: Sealing, publicKey: string, box: string, text: string) {
    exists coin :: SealForKey(s, text, publicKey, coin) == Some(box)
  }

  /** The plaintext of a signed copy. */
  function EnvelopeText(s: Sealing, d: Device, b: Blob): string {
    SIGNED_PREFIX + s.encodeEnvelope(Envelope(d.line, b))
  }

  predicate GoodKey(publicKey: string) {
    Decode(publicKey).Some? && |Decode(publicKey).value| == KEY_LEN
  }

  /** What the device signs for one machine. */
  function ToSign(s: Sealing, account: string, w: Work, m: Missing, o: OpenedSecret, issued: int): SignedSecret
    requires GoodKey(m.publicKey)
  {
    SignedSecret(account, w.secretID, o.meta.labelText, o.value, s.machineFP(Decode(m.publicKey).value), issued)
  }

  /** The context of one reseal. */
  datatype Job = Job(account: string, own: set<string>, key: nat, now: int)

  function JobOf(st: PolicyStatus, ownKeys: seq<string>, key: nat, now: int): Job {
    Job(st.account, (set id | id in ownKeys), key, now)
  }

  /** A plain copy for an own vault key, a signed one for a machine; the name beside it. */
  ghost predicate GoodCopy(s: Sealing, d: Device, job: Job, w: Work, m: Missing, o: OpenedSecret, copy: NewCopy) {
    && copy.secretID == w.secretID && copy.keyID == m.keyID
    && Seals(s, m.publicKey, copy.meta, s.encodeMeta(o.meta))
    && if m.keyID in job.own then Seals(s, m.publicKey, copy.enc, o.value)
       else
         && GoodKey(m.publicKey)
         && var b := d.sign(ToSign(s, job.account, w, m, o, job.now));
         b.Some? && Seals(s, m.publicKey, copy.enc, EnvelopeText(s, d, b.value))
  }

  /** Copies for the first |part| recipients of one secret, all from one opened value. */
  ghost predicate GoodCopies(s: Sealing, d: Device, job: Job, w: Work, o: OpenedSecret, part: seq<NewCopy>) {
    && |part| <= |w.missing| && OpensTo(s, w, job.key, o) && !IsSigned(o.value)
    && forall j :: 0 <= j < |part| ==> GoodCopy(s, d, job, w, w.missing[j], o, part[j])
  }

  /** All of one secret's copies, or none when no own copy of it opens. */
  ghost predicate Resealed(s: Sealing, d: Device, job: Job, w: Work, part: seq<NewCopy>) {
    || (part == [] && forall o :: !OpensTo(s, w, job.key, o))
    || (|part| == |w.missing| && exists o :: GoodCopies(s, d, job, w, o, part))
  }

  function Flatten<T>(parts: seq<seq<T>>): seq<T> {
    if parts == [] then [] else Flatten(parts[..|parts| - 1]) + parts[|parts| - 1]
  }

  function CountOwn(copies: seq<NewCopy>, own: set<string>): nat {
    if copies == [] then 0
    else CountOwn(copies[..|copies| - 1], own) + if copies[|copies| - 1].keyID in own then 1 else 0
  }

  lemma CountOwnNone()
    ensures forall own :: CountOwn([], own) == 0
  {
  }

  lemma CountOwnNext(copies: seq<NewCopy>, copy: NewCopy, own: set<string>)
    ensures CountOwn(copies + [copy], own) == CountOwn(copies, own) + if copy.keyID in own then 1 else 0
  {
    assert (copies + [copy])[..|copies|] == copies;
  }

  lemma {:induction false} CountOwnConcat(a: seq<NewCopy>, b: seq<NewCopy>, own: set<string>)
    ensures CountOwn(a + b, own) == CountOwn(a, own) + CountOwn(b, own)
    decreases |b|
  {
    if b == [] {
      assert a + b == a;
    } else {
      var n := |b| - 1;
      CountOwnConcat(a, b[..n], own);
      CountOwnNext(a + b[..n], b[n], own);
      assert a + b == a + b[..n] + [b[n]];
    }
  }

  lemma CopyKeyID(s: Sealing, d: Device, job: Job, w: Work, m: Missing, o: OpenedSecret, copy: NewCopy)
    requires GoodCopy(s, d, job, w, m, o, copy)
    ensures copy.keyID == m.keyID
  {
    hide Seals;
  }

  /** requireLiveDelegation */
  predicate LiveOnServer(st: PolicyStatus, fp: string, now: int) {
    exists d :: d in st.delegations && d.deviceFP == fp && !d.revoked && LiveAt(d.expires, now)
  }

  method RequireLiveDelegation(st: PolicyStatus, fp: string, now: int) returns (ok: bool)
    ensures ok == LiveOnServer(st, fp, now)
    ensures ok <==> exists d ::
      d in st.delegations && d.deviceFP == fp && d.revoked == false && (d.expires == 0 || now < d.expires)
  {
    for i := 0 to |st.delegations|
      invariant forall k :: 0 <= k < i ==>
        !(st.delegations[k].deviceFP == fp && !st.delegations[k].revoked && LiveAt(st.delegations[k].expires, now))
    {
      var d := st.delegations[i];
      if d.deviceFP == fp && !d.revoked && (d.expires == 0 || now < d.expires) {
        return true;
      }
    }
    ok := false;
  }

  // ----- when nothing can go wrong

  /** Signing works, and so does sealing to any 32-byte key. */
  ghost predicate Cooperative(s: Sealing, d: Device) {
    && (forall x :: d.sign(x).Some?)
    && (forall text, raw, coin :: |raw| == KEY_LEN ==> s.seal(text, raw, coin).Some?)
  }

  /** A machine's key is checked as it stands, a vault key once trimmed. */
  predicate KeyAccepted(job: Job, m: Missing) {
    GoodKey(if m.keyID in job.own then TrimSpace(m.publicKey) else m.publicKey)
  }

  /** No own copy holds a signed envelope, and every recipient key is well formed. */
  ghost predicate Ready(s: Sealing, job: Job, w: Work) {
    && (forall o :: OpensTo(s, w, job.key, o) ==> !IsSigned(o.value))
    && (forall m :: m in w.missing ==> KeyAccepted(job, m))
  }

  /** The server answers, calls the device live, and every secret is ready. */
  ghost predicate Smooth(c: Crypto, s: Sealing, d: Device, status: Option<PolicyStatus>, ownKeys: Option<seq<string>>,
      work: Option<seq<Work>>, key: nat, now: int)
  {
    && Cooperative(s, d) && status.Some? && ownKeys.Some? && work.Some?
    && LiveOnServer(status.value, c.fingerprint(d.key), now)
    && forall w :: w in work.value ==> Ready(s, JobOf(status.value, ownKeys.value, key, now), w)
  }

  // ----- what can go wrong

  /** Why one recipient gets no copy: a machine key that is no key, or signing or sealing
      that fails. */
  ghost predicate NoCopyBecause(s: Sealing, d: Device, job: Job, m: Missing, e: ResealError) {
    match e
    case BadMachineKey(id) => id == m.keyID && id !in job.own && !GoodKey(m.publicKey)
    case NotSigned => m.keyID !in job.own && GoodKey(m.publicKey) && exists x :: d.sign(x) == None
    case NotSealed =>
      && (m.keyID in job.own || GoodKey(m.publicKey))
      && exists text, coin :: SealForKey(s, text, m.publicKey, coin) == None
    case _ => false
  }

  /** Why a secret stops the reseal: that, or its own copy holds a signed envelope. */
  ghost predicate StopsBecause(s: Sealing, d: Device, job: Job, w: Work, e: ResealError) {
    if e.Nested? then e.id == w.secretID && exists o :: OpensTo(s, w, job.key, o) && IsSigned(o.value)
    else exists m :: m in w.missing && NoCopyBecause(s, d, job, m, e)
  }

  // ----- the reseal

  /** One recipient's copy. */
  method ResealOne(s: Sealing, d: Device, job: Job, w: Work, m: Missing, o: OpenedSecret, coin: nat)
    returns (r: Result<NewCopy, ResealError>)
    ensures r.Ok? ==> GoodCopy(s, d, job, w, m, o, r.value)
    ensures r.Err? ==> NoCopyBecause(s, d, job, m, r.error)
    ensures Cooperative(s, d) && KeyAccepted(job, m) ==> r.Ok?
  {
    hide Decode, TrimSpace;
    if Decode(m.publicKey).Some? {
      TrimmedKey(m.publicKey);
    }
    var j := s.encodeMeta(o.meta);
    if m.keyID in job.own {
      var enc := SealForKey(s, o.value, m.publicKey, coin);
      if enc.None? {
        return Err(NotSealed);
      }
      var meta := SealForKey(s, j, m.publicKey, coin + 1);
      if meta.None? {
        return Err(NotSealed);
      }
      return Ok(NewCopy(w.secretID, m.keyID, enc.value, meta.value));
    }
    var raw := Decode(m.publicKey);
    if raw.None? || |raw.value| != KEY_LEN {
      return Err(BadMachineKey(m.keyID));
    }
    var signed := d.sign(SignedSecret(job.account, w.secretID, o.meta.labelText, o.value, s.machineFP(raw.value),
      job.now));
    if signed.None? {
      return Err(NotSigned);
    }
    var enc := SealForKey(s, EnvelopeText(s, d, signed.value), m.publicKey, coin);
    if enc.None? {
      return Err(NotSealed);
    }
    var meta := SealForKey(s, j, m.publicKey, coin + 1);
    if meta.None? {
      return Err(NotSealed);
    }
    r := Ok(NewCopy(w.secretID, m.keyID, enc.value, meta.value));
  }

  lemma OnlyNested(s: Sealing, d: Device, job: Job)
    ensures forall m, id :: !NoCopyBecause(s, d, job, m, Nested(id))
  {
  }

  /** One secret's copies, counted as they are made. */
  method ResealWork(s: Sealing, d: Device, job: Job, w: Work, coin: nat)
    returns (r: Result<seq<NewCopy>, ResealError>, signed: nat, plain: nat)
    ensures r.Ok? ==> Resealed(s, d, job, w, r.value)
    ensures r.Ok? ==> plain == CountOwn(r.value, job.own) && signed + plain == |r.value|
    ensures r.Err? ==> StopsBecause(s, d, job, w, r.error)
    ensures Cooperative(s, d) && Ready(s, job, w) ==> r.Ok?
  {
    hide OpensTo, GoodCopy, IsSigned, KeyAccepted, Cooperative, NoCopyBecause;
    OnlyNested(s, d, job);
    signed, plain := 0, 0;
    var found := OpenAny(s, w, job.key);
    if found.None? {
      return Ok([]), 0, 0;
    }
    var o := found.value;
    if IsSigned(o.value) {
      return Err(Nested(w.secretID)), 0, 0;
    }
    var part: seq<NewCopy> := [];
    for j := 0 to |w.missing|
      invariant |part| == j && GoodCopies(s, d, job, w, o, part)
      invariant plain == CountOwn(part, job.own) && signed + plain == j
    {
      var copy := ResealOne(s, d, job, w, w.missing[j], o, coin + 2 * j);
      if copy.Err? {
        return Err(copy.error), signed, plain;
      }
      CopyKeyID(s, d, job, w, w.missing[j], o, copy.value);
      if w.missing[j].keyID in job.own {
        plain := plain + 1;
      } else {
        signed := signed + 1;
      }
      CountOwnNext(part, copy.value, job.own);
      part := part + [copy.value];
    }
    r := Ok(part);
  }

  /** secretReseal: fetch the work, reseal every secret, upload once. */
  method SecretReseal(c: Crypto, s: Sealing, d: Device, server: Server, key: nat, now: int, coin: nat)
    returns (r: Result<(nat, nat), ResealError>, ghost parts: seq<seq<NewCopy>>)
    modifies server
    ensures r.Err? ==> server.uploads == old(server.uploads)
    ensures r == Err(NoDelegation) <==>
      server.status.Some? && !LiveOnServer(server.status.value, c.fingerprint(d.key), now)
    ensures r == Err(NotFetched) <==>
      || server.status.None?
      || (LiveOnServer(server.status.value, c.fingerprint(d.key), now)
          && (server.ownKeys.None? || server.work.None?))
    ensures r.Err? && r.error != NoDelegation && r.error != NotFetched ==>
      if r.error == NotSaved then !server.saves
      else
        var job := Job(server.status.value.account, (set id | id in server.ownKeys.value), key, now);
        exists w :: w in server.work.value && StopsBecause(s, d, job, w, r.error)
    ensures server.saves && Smooth(c, s, d, server.status, server.ownKeys, server.work, key, now) ==> r.Ok?
    ensures r.Ok? ==> server.status.Some? && server.ownKeys.Some? && server.work.Some?
    ensures r.Ok? ==> LiveOnServer(server.status.value, c.fingerprint(d.key), now)
    ensures r.Ok? ==>
      var job := Job(server.status.value.account, (set id | id in server.ownKeys.value), key, now);
      var works, copies, (signed, plain) := server.work.value, Flatten(parts), r.value;
      && |parts| == |works| && (forall i :: 0 <= i < |works| ==> Resealed(s, d, job, works[i], parts[i]))
      && plain == CountOwn(copies, job.own) && signed + plain == |copies|
      && server.uploads == if copies == [] then old(server.uploads) else old(server.uploads) + [copies]
  {
    hide Resealed, LiveOnServer, Ready, Cooperative, CountOwn;
    CountOwnNone();
    parts := [];
    if server.status.None? {
      return Err(NotFetched), [];
    }
    var live := RequireLiveDelegation(server.status.value, c.fingerprint(d.key), now);
    if !live {
      return Err(NoDelegation), [];
    }
    if server.ownKeys.None? {
      return Err(NotFetched), [];
    }
    if server.work.None? {
      return Err(NotFetched), [];
    }
    var works, job := server.work.value, JobOf(server.status.value, server.ownKeys.value, key, now);
    var out: seq<NewCopy>, signed: nat, plain: nat, used: nat := [], 0, 0, coin;
    for i := 0 to |works|
      invariant |parts| == i && out == Flatten(parts) && server.uploads == old(server.uploads)
      invariant forall k :: 0 <= k < i ==> Resealed(s, d, job, works[k], parts[k])
      invariant plain == CountOwn(out, job.own) && signed + plain == |out|
    {
      var part, machines, vaults := ResealWork(s, d, job, works[i], used);
      if part.Err? {
        return Err(part.error), parts;
      }
      CountOwnConcat(out, part.value, job.own);
      signed, plain := signed + machines, plain + vaults;
      out, used := out + part.value, used + 2 * |works[i].missing|;
      parts := parts + [part.value];
      assert parts[..i] == parts[..|parts| - 1];
    }
    if out == [] {
      return Ok((0, 0)), parts;
    }
    var ok := server.Save(out);
    if !ok {
      return Err(NotSaved), parts;
    }
    r := Ok((signed, plain));
  }

  // ----- what the recipients make of it

  datatype Read = Read(name: string, value: string, unsigned: bool)

  /** A machine reading one of its copies on a pull. */
  function MachineReads(c: Crypto, s: Sealing, copy: NewCopy, machine: nat, trust: Option<SecretTrust>, when: int,
      requireSigned: bool): Result<Read, SecretError> {
    match OpenName(s, copy.meta, machine)
    case None => Err(NoName)
    case Some(meta) =>
      match s.open(copy.enc, machine)
      case None => Err(NotOpened)
      case Some(plain) =>
        match AcceptValue(c, s, plain, copy.secretID, meta.labelText, s.machineFP(s.pub(machine)), trust, when,
          requireSigned)
        case Err(e) => Err(e)
        case Ok((value, unsigned)) => Ok(Read(meta.labelText, value, unsigned))
  }

  lemma {:induction false} StripDropsBreak(t: string, ch: char)
    requires ch == '\r' || ch == '\n'
    ensures Strip([ch] + t) == Strip(t) && Strip(t + [ch]) == Strip(t)
  {
    assert ([ch] + t)[1..] == t;
    if t == "" {
      assert t + [ch] == [ch] && [ch][1..] == "";
    } else {
      StripDropsBreak(t[1..], ch);
      assert (t + [ch])[1..] == t[1..] + [ch];
    }
  }

  lemma SpaceIsBreak(t: string, ch: char)
    requires Decode(t).Some? && ch in t && IsSpace(ch)
    ensures ch == '\r' || ch == '\n'
  {
    DecodableChars(t, ch);
  }

  lemma {:induction false} TrimLeftDecodes(t: string)
    requires Decode(t).Some?
    ensures Decode(TrimLeft(t)) == Decode(t)
  {
    hide DecodeQuads, IsSpace;
    if t != "" && IsSpace(t[0]) {
      SpaceIsBreak(t, t[0]);
      StripDropsBreak(t[1..], t[0]);
      assert t == [t[0]] + t[1..];
      TrimLeftDecodes(t[1..]);
    }
  }

  lemma {:induction false} TrimRightDecodes(t: string)
    requires Decode(t).Some?
    ensures Decode(TrimRight(t)) == Decode(t)
  {
    hide DecodeQuads, IsSpace;
    var n := |t| - 1;
    if t != "" && IsSpace(t[n]) {
      SpaceIsBreak(t, t[n]);
      StripDropsBreak(t[..n], t[n]);
      assert t == t[..n] + [t[n]];
      TrimRightDecodes(t[..n]);
    }
  }

  /** A key that decodes decodes to the same bytes once trimmed. */
  lemma TrimmedKey(publicKey: string)
    requires Decode(publicKey).Some?
    ensures Decode(TrimSpace(publicKey)) == Decode(publicKey)
  {
    hide Decode;
    TrimLeftDecodes(publicKey);
    TrimRightDecodes(TrimLeft(publicKey));
  }

  lemma HolderOpens(s: Sealing, publicKey: string, box: string, text: string, machine: nat)
    requires SoundSealing(s) && Seals(s, publicKey, box, text) && Decode(TrimSpace(publicKey)) == Some(s.pub(machine))
    ensures s.open(box, machine) == Some(text)
  {
    hide Decode, TrimSpace;
    var coin :| SealForKey(s, text, publicKey, coin) == Some(box);
    assert box == s.seal(text, s.pub(machine), coin).value;
  }

  lemma NameReads(s: Sealing, publicKey: string, box: string, w: Work, key: nat, o: OpenedSecret, machine: nat)
    requires SoundSealing(s) && OpensTo(s, w, key, o)
    requires Seals(s, publicKey, box, s.encodeMeta(o.meta)) && Decode(TrimSpace(publicKey)) == Some(s.pub(machine))
    ensures OpenName(s, box, machine) == Some(o.meta) && Utf8(s, o.meta.labelText)
  {
    hide Decode, TrimSpace, Seals;
    HolderOpens(s, publicKey, box, s.encodeMeta(o.meta), machine);
    BoxNotEmpty(s, publicKey, box, s.encodeMeta(o.meta));
    var id :| id in w.copies && OpensAs(s, w.copies[id], key, o);
    assert s.decodeMeta(s.open(w.copies[id].meta, key).value) == Some(o.meta);
    assert s.decodeMeta(s.encodeMeta(o.meta)) == Some(o.meta);
  }

  /** The device holds a live, unrevoked delegation for the account in this trust. */
  predicate TrustsDevice(c: Crypto, trust: SecretTrust, d: Device, account: string, when: int) {
    var accounts := DelegatedAccounts(c, trust, c.fingerprint(d.key), when);
    accounts.Ok? && account in accounts.value
  }

  /** What a machine's copy carries, field by field: the account, the secret and its name,
      the value, this machine's key and the moment of the reseal, signed by the device. */
  lemma CopyCarries(c: Crypto, s: Sealing, d: Device, job: Job, w: Work, m: Missing, o: OpenedSecret, copy: NewCopy,
      machine: nat) returns (env: Envelope, x: SignedSecret)
    requires SoundSealing(s) && SoundDevice(c, s, d) && GoodCopy(s, d, job, w, m, o, copy)
    requires m.keyID !in job.own && Decode(m.publicKey) == Some(s.pub(machine))
    ensures s.open(copy.enc, machine) == Some("p3sig-signed-secret-v1\n" + s.encodeEnvelope(env))
    ensures s.decodeEnvelope(s.encodeEnvelope(env)) == Some(env) && c.parseKey(env.signer) == Some(d.key)
    ensures Bind(Opened(c, d.key, CtxSecret, env.secret), s.decodeSecret) == Some(x)
    ensures x == SignedSecret(s.scrub(job.account), s.scrub(w.secretID), s.scrub(o.meta.labelText), s.scrub(o.value),
      s.machineFP(s.pub(machine)), job.now)
  {
    hide Decode, TrimSpace, Opened, Seals;
    TrimmedKey(m.publicKey);
    var signed := ToSign(s, job.account, w, m, o, job.now);
    env := Envelope(d.line, d.sign(signed).value);
    x := Scrubbed(s, signed);
    HolderOpens(s, m.publicKey, copy.enc, EnvelopeText(s, d, d.sign(signed).value), machine);
  }

  /** A vault's own new copy opens to the same value and name as the copy it was made from. */
  lemma OwnCopyOpens(s: Sealing, d: Device, job: Job, w: Work, m: Missing, o: OpenedSecret, copy: NewCopy, vault: nat)
    requires SoundSealing(s) && GoodCopy(s, d, job, w, m, o, copy) && OpensTo(s, w, job.key, o)
    requires m.keyID in job.own && Decode(TrimSpace(m.publicKey)) == Some(s.pub(vault))
    ensures copy.secretID == w.secretID && copy.keyID == m.keyID
    ensures OpensAs(s, Copy(copy.enc, copy.meta), vault, o)
  {
    hide Decode, TrimSpace, OpensTo;
    NameReads(s, m.publicKey, copy.meta, w, job.key, o, vault);
    HolderOpens(s, m.publicKey, copy.enc, o.value, vault);
  }

  lemma EnvelopeOpens(c: Crypto, s: Sealing, d: Device, x: SignedSecret, trust: SecretTrust, when: int)
    requires SoundSealing(s) && SoundDevice(c, s, d) && d.sign(x).Some?
    requires Utf8(s, x.account) && Utf8(s, x.secretID) && Utf8(s, x.name) && Utf8(s, x.recipient)
    requires TrustsDevice(c, trust, d, x.account, when)
    ensures AcceptValue(c, s, EnvelopeText(s, d, d.sign(x).value), x.secretID, x.name, x.recipient, Some(trust), when,
      true)
      == Ok((s.scrub(x.value), false))
  {
    hide DelegatedAccounts, OpenSecret;
    var plain, env := EnvelopeText(s, d, d.sign(x).value), Envelope(d.line, d.sign(x).value);
    assert plain[|SIGNED_PREFIX|..] == s.encodeEnvelope(env);
    assert s.decodeEnvelope(s.encodeEnvelope(env)) == Some(env);
  }

  /** A machine's copy in a good set is accepted with signatures required, under any trust
      that delegates the device for the account: name and value are those of an opened
      copy, the value with invalid UTF-8 replaced. */
  lemma MachineAccepts(c: Crypto, s: Sealing, d: Device, job: Job, w: Work, m: Missing, o: OpenedSecret, copy: NewCopy,
      machine: nat, trust: SecretTrust, when: int)
    requires SoundSealing(s) && SoundDevice(c, s, d) && GoodCopy(s, d, job, w, m, o, copy) && OpensTo(s, w, job.key, o)
    requires m.keyID !in job.own && Decode(m.publicKey) == Some(s.pub(machine))
    requires Utf8(s, job.account) && Utf8(s, w.secretID) && TrustsDevice(c, trust, d, job.account, when)
    ensures MachineReads(c, s, copy, machine, Some(trust), when, true)
      == Ok(Read(o.meta.labelText, s.scrub(o.value), false))
  {
    hide Decode, TrimSpace, AcceptValue, TrustsDevice, EnvelopeText, OpensTo;
    TrimmedKey(m.publicKey);
    NameReads(s, m.publicKey, copy.meta, w, job.key, o, machine);
    var x := ToSign(s, job.account, w, m, o, job.now);
    HolderOpens(s, m.publicKey, copy.enc, EnvelopeText(s, d, d.sign(x).value), machine);
    EnvelopeOpens(c, s, d, x, trust, when);
  }

  /** The reseal round trip: after any successful reseal, every machine the server listed
      for a secret of which some own copy opens, holding its key, accepts its copy of that
      secret with signatures required and reads the name and value of an opened copy. */
  lemma ResealRoundTrip(c: Crypto, s: Sealing, d: Device, job: Job, works: seq<Work>, parts: seq<seq<NewCopy>>,
      i: nat, j: nat, machine: nat, trust: SecretTrust, when: int)
    requires SoundSealing(s) && SoundDevice(c, s, d)
    requires |parts| == |works| && forall k :: 0 <= k < |works| ==> Resealed(s, d, job, works[k], parts[k])
    requires i < |works| && j < |works[i].missing| && (exists o :: OpensTo(s, works[i], job.key, o))
    requires works[i].missing[j].keyID !in job.own && Decode(works[i].missing[j].publicKey) == Some(s.pub(machine))
    requires Utf8(s, job.account) && Utf8(s, works[i].secretID) && TrustsDevice(c, trust, d, job.account, when)
    ensures j < |parts[i]| && parts[i][j] in Flatten(parts)
    ensures exists o :: (
      && OpensTo(s, works[i], job.key, o)
      && MachineReads(c, s, parts[i][j], machine, Some(trust), when, true)
        == Ok(Read(o.meta.labelText, s.scrub(o.value), false)))
  {
    hide Decode, OpensTo, TrustsDevice, MachineReads, GoodCopy;
    assert Resealed(s, d, job, works[i], parts[i]);
    var o :| GoodCopies(s, d, job, works[i], o, parts[i]);
    var copy := parts[i][j];
    assert GoodCopy(s, d, job, works[i], works[i].missing[j], o, copy);
    MachineAccepts(c, s, d, job, works[i], works[i].missing[j], o, copy, machine, trust, when);
    FlattenHas(parts, i, copy);
  }

  lemma BoxNotEmpty(s: Sealing, publicKey: string, box: string, text: string)
    requires SoundSealing(s) && Seals(s, publicKey, box, text)
    ensures box != ""
  {
    hide Decode, TrimSpace;
    var coin :| SealForKey(s, text, publicKey, coin) == Some(box);
  }

  lemma {:induction false} FlattenHas<T>(parts: seq<seq<T>>, i: nat, x: T)
    requires i < |parts| && x in parts[i]
    ensures x in Flatten(parts)
    decreases |parts|
  {
    if i < |parts| - 1 {
      FlattenHas(parts[..|parts| - 1], i, x);
    }
  }
}
