/** The two wrapped-blob formats: their headers byte by byte, wrapping, unwrapping with
    every bounds check, and the inverses between them. */
module Wrap {
  import opened Gf256
  import opened Prelude

  type uint32 = n: int | 0 <= n < 0x1_0000_0000

  const VERSION: byte := 0x01
  const SCHEME_ECDH: byte := 0x01
  const SCHEME_ARGON2: byte := 0x02
  const NONCE_LEN := 12
  const ECDH_PUB_LEN := 65
  const SALT_LEN := 16
  const TAG_LEN := 16
  const ECDH_HEADER_LEN := 2 + ECDH_PUB_LEN + NONCE_LEN
  const ARGON_HEADER_LEN := 2 + SALT_LEN + 4 + 4 + 1 + NONCE_LEN
  const MAX_ARGON_MEM_KIB: uint32 := 2 * 1024 * 1024
  const MAX_ARGON_TIME: uint32 := 64

  datatype Argon2Params = Argon2Params(memKiB: uint32, time: uint32, par: byte)

  const DEFAULT_ARGON2 := Argon2Params(65536, 3, 4)

  datatype WrapError = BadFormat | UnsupportedScheme | Version | Unwrap | AgreementFailed

  /** The primitives: AES-GCM over (key, nonce, text, associated data), HKDF, Argon2id
      over (passphrase, salt, params), and P-256 public keys and agreement. */
  datatype Crypto = Crypto(
    seal: (seq<byte>, seq<byte>, seq<byte>, seq<byte>) -> seq<byte>,
    open: (seq<byte>, seq<byte>, seq<byte>, seq<byte>) -> Option<seq<byte>>,
    hkdf: seq<byte> -> seq<byte>,
    argon2: (seq<byte>, seq<byte>, Argon2Params) -> seq<byte>,
    pub: nat -> seq<byte>,
    agree: (nat, seq<byte>) -> Option<seq<byte>>)

  /** What is assumed: opening inverts sealing and nothing else opens, the tag has 16
      bytes, and both sides of an agreement get the same 32 bytes. */
  ghost predicate Sound(c: Crypto) {
    && (forall k, n, ct, aad, pt :: c.open(k, n, ct, aad) == Some(pt) <==> ct == c.seal(k, n, pt, aad))
    && (forall k, n, pt, aad :: |c.seal(k, n, pt, aad)| == |pt| + TAG_LEN)
    && (forall a :: |c.pub(a)| == ECDH_PUB_LEN)
    && (forall a, b :: c.agree(a, c.pub(b)) == c.agree(b, c.pub(a)))
    && (forall a, b :: c.agree(a, c.pub(b)).Some? && |c.agree(a, c.pub(b)).value| == 32)
  }

  /** zero: wipes a buffer. */
  method Zero(b: array<byte>)
    modifies b
    ensures forall i :: 0 <= i < b.Length ==> b[i] == 0
  {
    for i := 0 to b.Length
      invariant forall k :: 0 <= k < i ==> b[k] == 0
    {
      b[i] := 0;
    }
  }

  /** append: in place while the buffer has room, otherwise into a new one. Either way what
      was in use before is left as it was. */
  method Append(buf: array<byte>, n: nat, more: seq<byte>) returns (grown: array<byte>, m: nat)
    requires n <= buf.Length
    modifies buf
    ensures m == n + |more| <= grown.Length && grown[..m] == old(buf[..n]) + more
    ensures buf[..n] == old(buf[..n])
    ensures if n + |more| <= buf.Length then grown == buf else fresh(grown)
  {
    m := n + |more|;
    if m <= buf.Length {
      grown := buf;
    } else {
      grown := new byte[2 * m];
      forall i | 0 <= i < n {
        grown[i] := buf[i];
      }
    }
    forall i | 0 <= i < |more| {
      grown[n + i] := more[i];
    }
    assert grown[..m] == old(buf[..n]) + more;
  }

  /** A buffer holding these bytes. */
  method Buffer(bytes: seq<byte>) returns (buf: array<byte>)
    ensures fresh(buf) && buf[..] == bytes
  {
    buf := new byte[|bytes|](i requires 0 <= i < |bytes| => bytes[i]);
  }

  /** A header buffer of this capacity with version, scheme and first field appended. */
  method BeginHeader(capacity: nat, scheme: byte, field: seq<byte>) returns (header: array<byte>, n: nat)
    ensures fresh(header) && n <= header.Length && header[..n] == [VERSION, scheme] + field
  {
    header, n := new byte[capacity], 0;
    header, n := Append(header, n, [VERSION, scheme]);
    assert header[..n] == [VERSION, scheme];
    header, n := Append(header, n, field);
  }

  /** SchemeOf */
  function SchemeOf(blob: seq<byte>): Result<byte, WrapError> {
    if |blob| < 2 then Err(BadFormat)
    else if blob[0] != VERSION then Err(Version)
    else if blob[1] == SCHEME_ECDH || blob[1] == SCHEME_ARGON2 then Ok(blob[1])
    else Err(UnsupportedScheme)
  }

  // ----- scheme 1: agreement with a chip

  function EcdhHeader(ephPub: seq<byte>, nonce: seq<byte>): seq<byte> {
    [VERSION, SCHEME_ECDH] + ephPub + nonce
  }

  /** wrapECDHWith: None when the agreement fails. */
  function WrapEcdh(c: Crypto, secret: seq<byte>, chipPub: seq<byte>, eph: nat, nonce: seq<byte>): Option<seq<byte>> {
    match c.agree(eph, chipPub)
    case None => None
    case Some(shared) =>
      var header := EcdhHeader(c.pub(eph), nonce);
      Some(header + c.seal(c.hkdf(shared), nonce, secret, header))
  }

  /** UnwrapECDH with the agreement done by the caller's chip. */
  function UnwrapEcdh(c: Crypto, blob: seq<byte>, agree: seq<byte> -> Option<seq<byte>>): Result<seq<byte>, WrapError> {
    if |blob| < 2 then Err(BadFormat)
    else if blob[0] != VERSION then Err(Version)
    else if blob[1] != SCHEME_ECDH then Err(UnsupportedScheme)
    else if |blob| < ECDH_HEADER_LEN + TAG_LEN then Err(BadFormat)
    else
      var ephPub, nonce := blob[2..2 + ECDH_PUB_LEN], blob[2 + ECDH_PUB_LEN..ECDH_HEADER_LEN];
      var ct, aad := blob[ECDH_HEADER_LEN..], blob[..ECDH_HEADER_LEN];
      match agree(ephPub)
      case None => Err(AgreementFailed)
      case Some(shared) =>
        if |shared| != 32 then Err(Unwrap)
        else
          match c.open(c.hkdf(shared), nonce, ct, aad)
          case None => Err(Unwrap)
          case Some(secret) => Ok(secret)
  }

  lemma EcdhFields(ephPub: seq<byte>, nonce: seq<byte>, ct: seq<byte>)
    requires |ephPub| == ECDH_PUB_LEN && |nonce| == NONCE_LEN
    ensures var blob := EcdhHeader(ephPub, nonce) + ct;
      && |blob| == ECDH_HEADER_LEN + |ct|
      && blob[0] == VERSION && blob[1] == SCHEME_ECDH
      && blob[2..2 + ECDH_PUB_LEN] == ephPub && blob[2 + ECDH_PUB_LEN..ECDH_HEADER_LEN] == nonce
      && blob[ECDH_HEADER_LEN..] == ct && blob[..ECDH_HEADER_LEN] == EcdhHeader(ephPub, nonce)
  {
  }

  /** The chip recovers what was wrapped to it. */
  lemma EcdhRoundTrip(c: Crypto, secret: seq<byte>, chip: nat, eph: nat, nonce: seq<byte>)
    requires Sound(c) && |nonce| == NONCE_LEN
    ensures var blob := WrapEcdh(c, secret, c.pub(chip), eph, nonce);
      blob.Some? && UnwrapEcdh(c, blob.value, p => c.agree(chip, p)) == Ok(secret)
  {
    var shared, header := c.agree(eph, c.pub(chip)).value, EcdhHeader(c.pub(eph), nonce);
    var ct := c.seal(c.hkdf(shared), nonce, secret, header);
    EcdhFields(c.pub(eph), nonce, ct);
    hide EcdhHeader;
    var blob, agree := header + ct, p => c.agree(chip, p);
    assert WrapEcdh(c, secret, c.pub(chip), eph, nonce) == Some(blob);
    assert agree(blob[2..2 + ECDH_PUB_LEN]) == Some(shared);
    assert c.open(c.hkdf(shared), nonce, ct, header) == Some(secret);
  }

  /** wrapECDHWith: the header is appended to a buffer that it fills, so that appending the
      ciphertext cannot disturb the header that was authenticated; the keys are wiped. The
      holder of the chip recovers the secret. */
  method BuildEcdh(c: Crypto, secret: seq<byte>, chipPub: seq<byte>, eph: nat, nonce: seq<byte>)
    returns (blob: Option<seq<byte>>)
    ensures blob == WrapEcdh(c, secret, chipPub, eph, nonce)
    ensures Sound(c) && |nonce| == NONCE_LEN ==>
      forall chip :: c.pub(chip) == chipPub ==>
        blob.Some? && UnwrapEcdh(c, blob.value, p => c.agree(chip, p)) == Ok(secret)
  {
    hide UnwrapEcdh, Sound;
    var agreed := c.agree(eph, chipPub);
    if agreed.Some? {
      var shared := Buffer(agreed.value);
      var aesKey := Buffer(c.hkdf(shared[..]));
      var header, n := BeginHeader(ECDH_HEADER_LEN, SCHEME_ECDH, c.pub(eph));
      header, n := Append(header, n, nonce);
      assert header[..n] == EcdhHeader(c.pub(eph), nonce);
      assert aesKey[..] == c.hkdf(agreed.value);
      var ct := c.seal(aesKey[..], nonce, secret, header[..n]);
      var whole, m := Append(header, n, ct);
      blob := Some(whole[..m]);
      Zero(aesKey);
      Zero(shared);
    } else {
      blob := None;
    }
    if Sound(c) && |nonce| == NONCE_LEN {
      forall chip | c.pub(chip) == chipPub
        ensures blob.Some? && UnwrapEcdh(c, blob.value, p => c.agree(chip, p)) == Ok(secret)
      {
        EcdhRoundTrip(c, secret, chip, eph, nonce);
      }
    }
  }

  /** Version, scheme and length are right, so that the chip is asked. */
  predicate EcdhShaped(blob: seq<byte>) {
    |blob| >= ECDH_HEADER_LEN + TAG_LEN && blob[0] == VERSION && blob[1] == SCHEME_ECDH
  }

  ghost function Answer(answer: Option<array<byte>>): Option<seq<byte>>
    reads if answer.Some? then {answer.value} else {}
  {
    if answer.Some? then Some(answer.value[..]) else None
  }

  /** UnwrapECDH on the buffer with which the chip answers: whatever comes out, a shared
      secret that the chip was asked for does not outlive the call. */
  method OpenEcdh(c: Crypto, blob: seq<byte>, answer: Option<array<byte>>) returns (r: Result<seq<byte>, WrapError>)
    modifies if answer.Some? then {answer.value} else {}
    ensures var was := old(Answer(answer)); r == UnwrapEcdh(c, blob, _ => was)
    ensures answer.Some? ==>
      forall i :: 0 <= i < answer.value.Length ==>
        answer.value[i] == if EcdhShaped(blob) then 0 else old(answer.value[i])
  {
    if |blob| < 2 {
      return Err(BadFormat);
    }
    if blob[0] != VERSION {
      return Err(Version);
    }
    if blob[1] != SCHEME_ECDH {
      return Err(UnsupportedScheme);
    }
    if |blob| < ECDH_HEADER_LEN + TAG_LEN {
      return Err(BadFormat);
    }
    if answer.None? {
      return Err(AgreementFailed);
    }
    var shared := answer.value;
    if shared.Length != 32 {
      Zero(shared);
      return Err(Unwrap);
    }
    var aesKey := Buffer(c.hkdf(shared[..]));
    var nonce := blob[2 + ECDH_PUB_LEN..ECDH_HEADER_LEN];
    var secret := c.open(aesKey[..], nonce, blob[ECDH_HEADER_LEN..], blob[..ECDH_HEADER_LEN]);
    Zero(aesKey);
    Zero(shared);
    r := match secret case None => Err(Unwrap) case Some(text) => Ok(text);
  }

  /** A blob that unwraps is, byte for byte, the header of its fields followed by the
      sealing of what came out. */
  lemma EcdhReserialises(c: Crypto, blob: seq<byte>, agree: seq<byte> -> Option<seq<byte>>)
    requires Sound(c) && UnwrapEcdh(c, blob, agree).Ok?
    ensures var ephPub, nonce := blob[2..2 + ECDH_PUB_LEN], blob[2 + ECDH_PUB_LEN..ECDH_HEADER_LEN];
      && agree(ephPub).Some?
      && blob == EcdhHeader(ephPub, nonce)
                 + c.seal(c.hkdf(agree(ephPub).value), nonce, UnwrapEcdh(c, blob, agree).value,
                   EcdhHeader(ephPub, nonce))
  {
    var ephPub, nonce := blob[2..2 + ECDH_PUB_LEN], blob[2 + ECDH_PUB_LEN..ECDH_HEADER_LEN];
    assert blob[..ECDH_HEADER_LEN] == EcdhHeader(ephPub, nonce);
    assert blob == blob[..ECDH_HEADER_LEN] + blob[ECDH_HEADER_LEN..];
  }

  // ----- scheme 2: passphrase

  function PutUint32(n: uint32): (b: seq<byte>)
    ensures |b| == 4
  {
    [n / 0x100_0000, n / 0x1_0000 % 0x100, n / 0x100 % 0x100, n % 0x100]
  }

  function Uint32(b: seq<byte>): uint32
    requires |b| == 4
  {
    (b[0] as int) * 0x100_0000 + (b[1] as int) * 0x1_0000 + (b[2] as int) * 0x100 + b[3] as int
  }

  lemma Uint32RoundTrip(n: uint32)
    ensures Uint32(PutUint32(n)) == n
  {
    var h, m := n / 0x1_0000, n / 0x100;
    assert n == m * 0x100 + n % 0x100;
    assert m / 0x100 == h && m == h * 0x100 + m % 0x100;
    assert n / 0x100_0000 == h / 0x100 && h == h / 0x100 * 0x100 + h % 0x100;
    assert Uint32([h / 0x100, h % 0x100, m % 0x100, n % 0x100]) == n;
  }

  lemma PutUint32RoundTrip(b: seq<byte>)
    requires |b| == 4
    ensures PutUint32(Uint32(b)) == b
  {
    var n := Uint32(b);
    assert n / 0x100 == (b[0] as int) * 0x1_0000 + (b[1] as int) * 0x100 + b[2] as int;
    assert n / 0x1_0000 == (b[0] as int) * 0x100 + b[1] as int;
    assert n / 0x100_0000 == b[0];
  }

  function ArgonHeader(salt: seq<byte>, p: Argon2Params, nonce: seq<byte>): seq<byte> {
    [VERSION, SCHEME_ARGON2] + salt + PutUint32(p.memKiB) + PutUint32(p.time) + [p.par] + nonce
  }

  /** assembleArgon2 on values. */
  function AssembleArgon2(c: Crypto, secret: seq<byte>, aesKey: seq<byte>, salt: seq<byte>, nonce: seq<byte>,
      p: Argon2Params): seq<byte> {
    var header := ArgonHeader(salt, p, nonce);
    header + c.seal(aesKey, nonce, secret, header)
  }

  /** The parameters used when none are given. */
  function Chosen(p: Argon2Params): Argon2Params {
    if p == Argon2Params(0, 0, 0) then DEFAULT_ARGON2 else p
  }

  /** Argon2id itself needs at least one pass and one lane. */
  predicate Computable(p: Argon2Params) {
    Chosen(p).time > 0 && Chosen(p).par > 0
  }

  /** WrapPassphrase with the random salt and nonce given. */
  function WrapPassphrase(c: Crypto, secret: seq<byte>, passphrase: seq<byte>, p: Argon2Params, salt: seq<byte>,
      nonce: seq<byte>): seq<byte>
    requires Computable(p)
  {
    AssembleArgon2(c, secret, c.argon2(passphrase, salt, Chosen(p)), salt, nonce, Chosen(p))
  }

  /** The bounds that unwrapping puts on the stored parameters. */
  predicate InBounds(p: Argon2Params) {
    0 < p.memKiB <= MAX_ARGON_MEM_KIB && 0 < p.time <= MAX_ARGON_TIME && p.par != 0
  }

  /** The parameters stored in a blob. */
  function StoredParams(blob: seq<byte>): Argon2Params
    requires |blob| >= ARGON_HEADER_LEN
  {
    Argon2Params(Uint32(blob[18..22]), Uint32(blob[22..26]), blob[26])
  }

  /** UnwrapPassphrase */
  function UnwrapPassphrase(c: Crypto, blob: seq<byte>, passphrase: seq<byte>): Result<seq<byte>, WrapError> {
    if |blob| < 2 then Err(BadFormat)
    else if blob[0] != VERSION then Err(Version)
    else if blob[1] != SCHEME_ARGON2 then Err(UnsupportedScheme)
    else if |blob| < ARGON_HEADER_LEN + TAG_LEN then Err(BadFormat)
    else
      var salt, p, nonce := blob[2..2 + SALT_LEN], StoredParams(blob), blob[27..ARGON_HEADER_LEN];
      var ct, aad := blob[ARGON_HEADER_LEN..], blob[..ARGON_HEADER_LEN];
      if !InBounds(p) then Err(BadFormat)
      else
        match c.open(c.argon2(passphrase, salt, p), nonce, ct, aad)
        case None => Err(Unwrap)
        case Some(secret) => Ok(secret)
  }

  lemma ArgonFields(salt: seq<byte>, p: Argon2Params, nonce: seq<byte>, ct: seq<byte>)
    requires |salt| == SALT_LEN && |nonce| == NONCE_LEN
    ensures var blob := ArgonHeader(salt, p, nonce) + ct;
      && |blob| == ARGON_HEADER_LEN + |ct|
      && blob[0] == VERSION && blob[1] == SCHEME_ARGON2
      && blob[2..2 + SALT_LEN] == salt && blob[18..22] == PutUint32(p.memKiB) && blob[22..26] == PutUint32(p.time)
      && blob[26] == p.par && blob[27..ARGON_HEADER_LEN] == nonce
      && blob[ARGON_HEADER_LEN..] == ct && blob[..ARGON_HEADER_LEN] == ArgonHeader(salt, p, nonce)
  {
    hide PutUint32;
  }

  /** A blob assembled under the key of a passphrase opens with it exactly when the
      parameters are within the bounds; outside them it is refused as malformed. */
  lemma AssembledOpens(c: Crypto, secret: seq<byte>, passphrase: seq<byte>, salt: seq<byte>, nonce: seq<byte>,
      p: Argon2Params)
    requires Sound(c) && |salt| == SALT_LEN && |nonce| == NONCE_LEN
    ensures UnwrapPassphrase(c, AssembleArgon2(c, secret, c.argon2(passphrase, salt, p), salt, nonce, p), passphrase) ==
      if InBounds(p) then Ok(secret) else Err(BadFormat)
  {
    hide PutUint32, Uint32, ArgonHeader, InBounds;
    var aesKey := c.argon2(passphrase, salt, p);
    var header := ArgonHeader(salt, p, nonce);
    var ct := c.seal(aesKey, nonce, secret, header);
    ArgonFields(salt, p, nonce, ct);
    Uint32RoundTrip(p.memKiB);
    Uint32RoundTrip(p.time);
    assert StoredParams(header + ct) == p;
    assert c.open(aesKey, nonce, ct, header) == Some(secret);
  }

  /** Unwrapping undoes wrapping exactly when the parameters are within the bounds that
      only unwrapping checks; outside them the blob is refused as malformed. */
  lemma PassphraseRoundTrip(c: Crypto, secret: seq<byte>, passphrase: seq<byte>, p: Argon2Params, salt: seq<byte>,
      nonce: seq<byte>)
    requires Sound(c) && Computable(p) && |salt| == SALT_LEN && |nonce| == NONCE_LEN
    ensures UnwrapPassphrase(c, WrapPassphrase(c, secret, passphrase, p, salt, nonce), passphrase) ==
      if InBounds(Chosen(p)) then Ok(secret) else Err(BadFormat)
  {
    hide UnwrapPassphrase, AssembleArgon2, InBounds, Chosen;
    AssembledOpens(c, secret, passphrase, salt, nonce, Chosen(p));
  }

  /** The header in a buffer that it fills, field by field. */
  method BuildArgonHeader(salt: seq<byte>, p: Argon2Params, nonce: seq<byte>) returns (header: array<byte>, n: nat)
    ensures fresh(header) && n <= header.Length && header[..n] == ArgonHeader(salt, p, nonce)
  {
    hide PutUint32;
    header, n := BeginHeader(ARGON_HEADER_LEN, SCHEME_ARGON2, salt);
    header, n := Append(header, n, PutUint32(p.memKiB));
    header, n := Append(header, n, PutUint32(p.time));
    header, n := Append(header, n, [p.par]);
    header, n := Append(header, n, nonce);
  }

  /** assembleArgon2: the header fills its buffer, so that appending the ciphertext cannot
      disturb the header that was authenticated. Whoever has a passphrase for the key
      recovers the secret, within the bounds. */
  method BuildArgon2(c: Crypto, secret: seq<byte>, aesKey: array<byte>, salt: seq<byte>, nonce: seq<byte>,
      p: Argon2Params)
    returns (blob: seq<byte>)
    ensures blob == AssembleArgon2(c, secret, aesKey[..], salt, nonce, p)
    ensures Sound(c) && |salt| == SALT_LEN && |nonce| == NONCE_LEN ==>
      forall passphrase :: c.argon2(passphrase, salt, p) == aesKey[..] ==>
        UnwrapPassphrase(c, blob, passphrase) == if InBounds(p) then Ok(secret) else Err(BadFormat)
  {
    hide UnwrapPassphrase, InBounds, ArgonHeader, Sound;
    var header, n := BuildArgonHeader(salt, p, nonce);
    var ct := c.seal(aesKey[..], nonce, secret, header[..n]);
    var whole, m := Append(header, n, ct);
    blob := whole[..m];
    if Sound(c) && |salt| == SALT_LEN && |nonce| == NONCE_LEN {
      forall passphrase | c.argon2(passphrase, salt, p) == aesKey[..]
        ensures UnwrapPassphrase(c, blob, passphrase) == if InBounds(p) then Ok(secret) else Err(BadFormat)
      {
        AssembledOpens(c, secret, passphrase, salt, nonce, p);
      }
    }
  }

  /** WrapPassphrase: choose the parameters, derive the key, assemble, wipe the key. */
  method SealPassphrase(c: Crypto, secret: seq<byte>, passphrase: seq<byte>, p: Argon2Params, salt: seq<byte>,
      nonce: seq<byte>)
    returns (blob: seq<byte>)
    requires Computable(p)
    ensures blob == WrapPassphrase(c, secret, passphrase, p, salt, nonce)
    ensures Sound(c) && |salt| == SALT_LEN && |nonce| == NONCE_LEN ==>
      UnwrapPassphrase(c, blob, passphrase) == if InBounds(Chosen(p)) then Ok(secret) else Err(BadFormat)
  {
    hide UnwrapPassphrase, AssembleArgon2, InBounds;
    var q := p;
    if p == Argon2Params(0, 0, 0) {
      q := DEFAULT_ARGON2;
    }
    var aesKey := Buffer(c.argon2(passphrase, salt, q));
    blob := BuildArgon2(c, secret, aesKey, salt, nonce, q);
    Zero(aesKey);
  }

  /** Computable parameters that unwrapping refuses: 65 passes. */
  lemma WrapAcceptsTooManyPasses(c: Crypto, secret: seq<byte>, passphrase: seq<byte>, salt: seq<byte>, nonce: seq<byte>)
    requires Sound(c) && |salt| == SALT_LEN && |nonce| == NONCE_LEN
    ensures var p := Argon2Params(65536, 65, 4);
      Computable(p)
        && UnwrapPassphrase(c, WrapPassphrase(c, secret, passphrase, p, salt, nonce), passphrase) == Err(BadFormat)
  {
    PassphraseRoundTrip(c, secret, passphrase, Argon2Params(65536, 65, 4), salt, nonce);
  }

  /** A blob that unwraps re-serialises to itself from its parsed fields. */
  lemma PassphraseReserialises(c: Crypto, blob: seq<byte>, passphrase: seq<byte>)
    requires Sound(c) && UnwrapPassphrase(c, blob, passphrase).Ok?
    ensures var salt, p, nonce := blob[2..2 + SALT_LEN], StoredParams(blob), blob[27..ARGON_HEADER_LEN];
      && InBounds(p)
      && blob == ArgonHeader(salt, p, nonce)
                 + c.seal(c.argon2(passphrase, salt, p), nonce, UnwrapPassphrase(c, blob, passphrase).value,
                   ArgonHeader(salt, p, nonce))
  {
    hide InBounds, StoredParams, ArgonHeader;
    HeaderOfBlob(blob);
    var salt, p, nonce := blob[2..2 + SALT_LEN], StoredParams(blob), blob[27..ARGON_HEADER_LEN];
    var header, ct := blob[..ARGON_HEADER_LEN], blob[ARGON_HEADER_LEN..];
    var aesKey, secret := c.argon2(passphrase, salt, p), UnwrapPassphrase(c, blob, passphrase).value;
    assert c.open(aesKey, nonce, ct, header) == Some(secret);
    assert ct == c.seal(aesKey, nonce, secret, header);
    assert blob == header + ct;
  }

  lemma HeaderOfBlob(blob: seq<byte>)
    requires |blob| >= ARGON_HEADER_LEN && blob[0] == VERSION && blob[1] == SCHEME_ARGON2
    ensures blob[..ARGON_HEADER_LEN]
      == ArgonHeader(blob[2..2 + SALT_LEN], StoredParams(blob), blob[27..ARGON_HEADER_LEN])
  {
    hide PutUint32, Uint32;
    PutUint32RoundTrip(blob[18..22]);
    PutUint32RoundTrip(blob[22..26]);
  }

  /** No blob unwraps under both schemes, and the scheme byte tells which can. */
  lemma SchemesDisjoint(c: Crypto, blob: seq<byte>, agree: seq<byte> -> Option<seq<byte>>, passphrase: seq<byte>)
    ensures UnwrapEcdh(c, blob, agree).Ok? ==> SchemeOf(blob) == Ok(SCHEME_ECDH)
    ensures UnwrapPassphrase(c, blob, passphrase).Ok? ==> SchemeOf(blob) == Ok(SCHEME_ARGON2)
  {
  }

  // ----- the format, byte for byte

  /** Where the fields of a header stand; numbers are big-endian. */
  lemma HeaderLayout(salt: seq<byte>, p: Argon2Params, ephPub: seq<byte>, nonce: seq<byte>)
    requires |salt| == 16 && |ephPub| == 65 && |nonce| == 12
    ensures var h := EcdhHeader(ephPub, nonce); |h| == 79 && h[..2] == [1, 1] && h[2..67] == ephPub && h[67..] == nonce
    ensures var h := ArgonHeader(salt, p, nonce);
      && |h| == 39 && h[..2] == [1, 2] && h[2..18] == salt && h[18..22] == PutUint32(p.memKiB)
      && h[22..26] == PutUint32(p.time) && h[26] == p.par && h[27..] == nonce
    ensures PutUint32(0x0102_0304) == [1, 2, 3, 4]
  {
    assert PutUint32(0x0102_0304) == [1, 2, 3, 4];
    hide PutUint32;
  }

  /** Parameters left out are 64 MiB, three passes and four lanes, others are kept; unwrapping
      allows 2 GiB and 64 passes, and none of the three may be zero. */
  lemma ParamsAre(p: Argon2Params)
    ensures Chosen(Argon2Params(0, 0, 0)) == Argon2Params(65536, 3, 4)
    ensures p.memKiB != 0 || p.time != 0 || p.par != 0 ==> Chosen(p) == p
    ensures InBounds(p) <==> 1 <= p.memKiB <= 2_097_152 && 1 <= p.time <= 64 && 1 <= p.par
  {
  }

  /** What the first two bytes of a blob decide. */
  lemma SchemeIs(blob: seq<byte>)
    ensures |blob| < 2 ==> SchemeOf(blob) == Err(BadFormat)
    ensures |blob| >= 2 && blob[0] != 1 ==> SchemeOf(blob) == Err(Version)
    ensures |blob| >= 2 && blob[0] == 1 ==>
      SchemeOf(blob) == if blob[1] == 1 || blob[1] == 2 then Ok(blob[1]) else Err(UnsupportedScheme)
  {
  }

  /** Every error of unwrapping for a chip. */
  lemma EcdhErrors(c: Crypto, blob: seq<byte>, agree: seq<byte> -> Option<seq<byte>>)
    ensures var r := UnwrapEcdh(c, blob, agree);
      && (|blob| < 2 ==> r == Err(BadFormat))
      && (|blob| >= 2 && blob[0] != 1 ==> r == Err(Version))
      && (|blob| >= 2 && blob[0] == 1 && blob[1] != 1 ==> r == Err(UnsupportedScheme))
      && (2 <= |blob| < 95 && blob[0] == 1 && blob[1] == 1 ==> r == Err(BadFormat))
      && (|blob| >= 95 && blob[0] == 1 && blob[1] == 1 ==>
            && (agree(blob[2..67]) == None ==> r == Err(AgreementFailed))
            && (agree(blob[2..67]).Some? && r.Err? ==> r.error == Unwrap))
  {
  }

  /** Every error of unwrapping with a passphrase. */
  lemma PassphraseErrors(c: Crypto, blob: seq<byte>, passphrase: seq<byte>)
    ensures var r := UnwrapPassphrase(c, blob, passphrase);
      && (|blob| < 2 ==> r == Err(BadFormat))
      && (|blob| >= 2 && blob[0] != 1 ==> r == Err(Version))
      && (|blob| >= 2 && blob[0] == 1 && blob[1] != 2 ==> r == Err(UnsupportedScheme))
      && (2 <= |blob| < 55 && blob[0] == 1 && blob[1] == 2 ==> r == Err(BadFormat))
      && (|blob| >= 55 && blob[0] == 1 && blob[1] == 2 ==>
            && (!InBounds(StoredParams(blob)) ==> r == Err(BadFormat))
            && (InBounds(StoredParams(blob)) && r.Err? ==> r.error == Unwrap))
  {
    hide InBounds, StoredParams;
  }
}
