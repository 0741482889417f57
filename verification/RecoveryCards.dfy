/** Recovery cards: the framed payload, the printed text, and the line scanner that
    reads blocks back from pasted text. */
module RecoveryCards {
  import opened Gf256
  import opened Base64
  import opened Prelude
  import opened Text
  import opened Shamir

  /** The hash whose first four bytes are the card checksum. */
  type Sha256 = f: seq<byte> -> seq<byte> | forall x :: |f(x)| == 32
    witness _ => seq(32, _ => 0)

  const CARD_MAGIC: seq<byte> := [0x50, 0x33, 0x52, 0x31]   // P3R1
  const SHARE_MAGIC: seq<byte> := [0x50, 0x33, 0x53, 0x31]  // P3S1

  // ----- framing

  function BuildBlob(sha: Sha256, magic: seq<byte>, body: seq<byte>): seq<byte> {
    magic + body + sha(magic + body)[..4]
  }

  datatype ScanError = BadBase64 | NotACard | BadChecksum | MalformedShare | Unrecognised | NothingFound

  function OpenBlob(sha: Sha256, p: seq<byte>): Result<(seq<byte>, seq<byte>), ScanError> {
    if |p| < 4 + 4 then Err(NotACard)
    else
      var pre, sum := p[..|p| - 4], p[|p| - 4..];
      if sha(pre)[..4] != sum then Err(BadChecksum) else Ok((pre[..4], pre[4..]))
  }

  /** A blob opens to a magic and a body exactly when it was built from them. */
  lemma OpenIffBuilt(sha: Sha256, p: seq<byte>, magic: seq<byte>, body: seq<byte>)
    requires |magic| == 4
    ensures OpenBlob(sha, p) == Ok((magic, body)) <==> p == BuildBlob(sha, magic, body)
  {
    if p == BuildBlob(sha, magic, body) {
      assert p[..|p| - 4] == magic + body;
      assert p[|p| - 4..] == sha(magic + body)[..4];
    }
    if OpenBlob(sha, p) == Ok((magic, body)) {
      var pre, sum := p[..|p| - 4], p[|p| - 4..];
      assert pre == magic + body;
      assert p == pre + sum;
    }
  }

  // ----- printing

  /** Pieces of at most 48 characters. */
  function Chunks(s: string): (lines: seq<string>)
    ensures lines != []
  {
    if |s| <= 48 then [s] else [s[..48]] + Chunks(s[48..])
  }

  function Concat(lines: seq<string>): string {
    if lines == [] then "" else lines[0] + Concat(lines[1..])
  }

  lemma {:induction false} ConcatChunks(s: string)
    ensures Concat(Chunks(s)) == s
  {
    if |s| <= 48 {
      assert [s][1..] == [];
    } else {
      ConcatChunks(s[48..]);
      assert Chunks(s)[1..] == Chunks(s[48..]);
    }
  }

  /** All but the last have 48 characters, and the last no more. */
  lemma {:induction false} ChunkLengths(s: string)
    ensures var lines := Chunks(s);
      && (forall i :: 0 <= i < |lines| - 1 ==> |lines[i]| == 48)
      && |lines[|lines| - 1]| <= 48 && (s != "" ==> lines[|lines| - 1] != "")
  {
    if |s| > 48 {
      ChunkLengths(s[48..]);
    }
  }

  /** Every chunk is made of the text's characters; none is empty unless the text is. */
  lemma {:induction false} ChunkChars(s: string)
    ensures forall l, c :: l in Chunks(s) && c in l ==> c in s
    ensures s != "" ==> "" !in Chunks(s)
  {
    if |s| > 48 {
      ChunkChars(s[48..]);
    }
  }

  function BeginMark(): string { "BEGIN P3SIG RECOVERY" }
  function EndMark(): string { "END P3SIG RECOVERY" }

  function ShareBegin(): string { "-----" + BeginMark() + " SHARE-----" }
  function ShareEnd(): string { "-----" + EndMark() + " SHARE-----" }
  function CardBegin(): string { "-----" + BeginMark() + " CARD-----" }
  function CardEnd(): string { "-----" + EndMark() + " CARD-----" }

  function FingerprintLine(fp: string): string {
    "fingerprint: " + fp + FingerprintTail()
  }

  // Texts of more than forty characters are given in two phrases: the verifier does not
  // see the first characters of a longer literal.

  function FingerprintTail(): string {
    "   (public \U{2014} " + "identifies the key, not secret)"
  }

  function ShareLine(idx: nat, n: nat, m: nat): string {
    "share:       " + Decimal(idx) + " of " + Decimal(n) + "   (any " + Decimal(m) + " recover the key)"
  }

  /** What protects the card, and what that means for keeping it. */
  function ProtectionText(withPassphrase: bool): string {
    ProtectedBy(withPassphrase) + " \U{2014} " + Advice(withPassphrase)
  }

  function ProtectedBy(withPassphrase: bool): string {
    if withPassphrase then "passphrase (Argon2id)" else "NONE"
  }

  function Advice(withPassphrase: bool): string {
    if withPassphrase then SealedAdvice() else OpenAdvice()
  }

  function SealedAdvice(): string { "useless to anyone without the passphrase" }

  function OpenAdvice(): string { "keep this card physically secure " + "(e.g. a safe)" }

  function ProtectionLine(withPassphrase: bool): string {
    "protection:  " + ProtectionText(withPassphrase)
  }

  function BlockLines(first: string, head: string, next: string, payload: seq<byte>, last: string): seq<string> {
    [first, head, next, ""] + Chunks(Encode(payload)) + [last]
  }

  /** The lines of one printed share. */
  function ShareLines(fp: string, idx: nat, n: nat, m: nat, payload: seq<byte>): seq<string> {
    BlockLines(ShareBegin(), ShareLine(idx, n, m), FingerprintLine(fp), payload, ShareEnd())
  }

  /** The lines of a single recovery card. */
  function CardLines(fp: string, withPassphrase: bool, payload: seq<byte>): seq<string> {
    BlockLines(CardBegin(), FingerprintLine(fp), ProtectionLine(withPassphrase), payload, CardEnd())
  }

  /** The loop of renderShare and renderCard that cuts the text every 48 characters. */
  method CutLines(b64: string) returns (lines: seq<string>)
    requires b64 != ""
    ensures lines == Chunks(b64)
  {
    lines := [];
    var i := 0;
    while i < |b64|
      invariant 0 <= i
      invariant i < |b64| ==> lines + Chunks(b64[i..]) == Chunks(b64)
      invariant i >= |b64| ==> lines == Chunks(b64)
    {
      var end := i + 48;
      if end > |b64| {
        end := |b64|;
      }
      lines := lines + [b64[i..end]];
      if i + 48 < |b64| {
        assert b64[i..][..48] == b64[i..i + 48] && b64[i..][48..] == b64[i + 48..];
      } else {
        assert b64[i..] == b64[i..end];
      }
      i := i + 48;
    }
  }

  lemma {:induction false} JoinConcat(a: seq<string>, b: seq<string>)
    requires a != [] && b != []
    ensures Join(a + b) == Join(a) + "\n" + Join(b)
  {
    assert (a + b)[1..] == a[1..] + b;
    if |a| > 1 {
      JoinConcat(a[1..], b);
    }
  }

  /** The text of a block is its lines, each ended by a line break. */
  lemma BlockText(first: string, head: string, next: string, lines: seq<string>, last: string)
    requires lines != []
    ensures first + "\n" + head + "\n" + next + "\n" + "\n" + Join(lines) + "\n" + last + "\n"
      == Join([first, head, next, ""] + lines + [last]) + "\n"
  {
    hide Join;
    JoinConcat([first, head, next, ""] + lines, [last]);
    JoinConcat([first, head, next, ""], lines);
    JoinConcat([first, head, next], [""]);
    JoinConcat([first, head], [next]);
    JoinConcat([first], [head]);
    JoinOne(first);
    JoinOne(head);
    JoinOne(next);
    JoinOne("");
    JoinOne(last);
    assert [first] + [head] == [first, head];
    assert [first, head] + [next] == [first, head, next];
    assert [first, head, next] + [""] == [first, head, next, ""];
  }

  lemma JoinOne(l: string)
    ensures Join([l]) == l
  {
  }

  /** renderShare */
  method RenderShare(fp: string, idx: nat, n: nat, m: nat, payload: seq<byte>) returns (card: string)
    requires payload != []
    ensures card == Join(ShareLines(fp, idx, n, m, payload)) + "\n"
  {
    hide Join, Chunks, Encode, ShareBegin, ShareEnd, ShareLine, FingerprintLine;
    EncodedChars(payload);
    var lines := CutLines(Encode(payload));
    BlockText(ShareBegin(), ShareLine(idx, n, m), FingerprintLine(fp), lines, ShareEnd());
    card := ShareBegin() + "\n" + ShareLine(idx, n, m) + "\n" + FingerprintLine(fp) + "\n" + "\n"
      + Join(lines) + "\n" + ShareEnd() + "\n";
  }

  /** renderCard */
  method RenderCard(fp: string, withPassphrase: bool, payload: seq<byte>) returns (card: string)
    requires payload != []
    ensures card == Join(CardLines(fp, withPassphrase, payload)) + "\n"
  {
    hide Join, Chunks, Encode, CardBegin, CardEnd, ProtectionLine, FingerprintLine;
    EncodedChars(payload);
    var lines := CutLines(Encode(payload));
    BlockText(CardBegin(), FingerprintLine(fp), ProtectionLine(withPassphrase), lines, CardEnd());
    card := CardBegin() + "\n" + FingerprintLine(fp) + "\n" + ProtectionLine(withPassphrase) + "\n" + "\n"
      + Join(lines) + "\n" + CardEnd() + "\n";
  }

  // ----- scanning

  predicate HasMark(s: string) {
    Contains(s, BeginMark()) || Contains(s, EndMark())
  }

  /** The pattern ^[A-Za-z0-9+/=]+$ */
  predicate IsDataLine(s: string) {
    s != "" && forall c :: c in s ==> IsEncodedChar(c)
  }

  /** The characters of a data line, spelled out. */
  lemma DataLineChars(s: string)
    ensures IsDataLine(s) <==>
      s != "" && forall c :: c in s ==> 'A' <= c <= 'Z' || 'a' <= c <= 'z' || c in "0123456789+/="
  {
    hide IsEncodedChar;
    forall c: char
      ensures IsEncodedChar(c) <==> 'A' <= c <= 'Z' || 'a' <= c <= 'z' || c in "0123456789+/="
    {
      DataChar(c);
    }
  }

  lemma DataChar(c: char)
    ensures IsEncodedChar(c) <==> 'A' <= c <= 'Z' || 'a' <= c <= 'z' || c in "0123456789+/="
  {
  }

  datatype Found = Found(cards: seq<seq<byte>>, shares: seq<Share>)

  datatype ScanState = ScanState(inside: bool, text: string, found: Found)

  /** What one decoded block adds to what was found. */
  function Sort(sha: Sha256, found: Found, p: seq<byte>): Result<Found, ScanError> {
    match OpenBlob(sha, p)
    case Err(e) => Err(e)
    case Ok((magic, body)) =>
      if magic == CARD_MAGIC then Ok(found.(cards := found.cards + [p]))
      else if magic == SHARE_MAGIC then
        if |body| < 2 then Err(MalformedShare)
        else Ok(found.(shares := found.shares + [Share(body[1], body[0], body[2..])]))
      else Err(Unrecognised)
  }

  function Flush(sha: Sha256, text: string, found: Found): Result<Found, ScanError> {
    if text == "" then Ok(found)
    else
      match Decode(text)
      case None => Err(BadBase64)
      case Some(p) => Sort(sha, found, p)
  }

  /** One line, already trimmed, read in state `st`. */
  function Step(sha: Sha256, st: ScanState, s: string): Result<ScanState, ScanError> {
    if Contains(s, BeginMark()) then Ok(ScanState(true, "", st.found))
    else if Contains(s, EndMark()) then
      match Flush(sha, st.text, st.found)
      case Err(e) => Err(e)
      case Ok(found) => Ok(ScanState(false, "", found))
    else if st.inside && IsDataLine(s) then Ok(st.(text := st.text + s))
    else Ok(st)
  }

  function Scan(sha: Sha256, st: ScanState, lines: seq<string>): Result<ScanState, ScanError>
    decreases |lines|
  {
    if lines == [] then Ok(st)
    else
      match Step(sha, st, TrimSpace(lines[0]))
      case Err(e) => Err(e)
      case Ok(st') => Scan(sha, st', lines[1..])
  }

  const START := ScanState(false, "", Found([], []))

  function Extracted(sha: Sha256, raw: string): Result<Found, ScanError> {
    match Scan(sha, START, Split(raw))
    case Err(e) => Err(e)
    case Ok(st) => if st.found == Found([], []) then Err(NothingFound) else Ok(st.found)
  }

  /** extractBlocks */
  method ExtractBlocks(sha: Sha256, raw: string) returns (r: Result<Found, ScanError>)
    ensures r == Extracted(sha, raw)
  {
    var lines := Split(raw);
    var inside, text, found := false, "", Found([], []);
    for i := 0 to |lines|
      invariant Scan(sha, ScanState(inside, text, found), lines[i..]) == Scan(sha, START, lines)
    {
      var s := TrimSpace(lines[i]);
      if Contains(s, BeginMark()) {
        inside, text := true, "";
      } else if Contains(s, EndMark()) {
        var flushed := Flush(sha, text, found);
        if flushed.Err? {
          return Err(flushed.error);
        }
        inside, text, found := false, "", flushed.value;
      } else if inside && IsDataLine(s) {
        text := text + s;
      }
    }
    if |found.cards| == 0 && |found.shares| == 0 {
      return Err(NothingFound);
    }
    r := Ok(found);
  }

  lemma {:induction false} ScanConcat(sha: Sha256, st: ScanState, a: seq<string>, b: seq<string>)
    ensures Scan(sha, st, a + b) == match Scan(sha, st, a) case Err(e) => Err(e) case Ok(st') => Scan(sha, st', b)
    decreases |a|
  {
    hide Step, TrimSpace;
    if a == [] {
      assert a + b == b;
    } else {
      assert (a + b)[1..] == a[1..] + b;
      match Step(sha, st, TrimSpace(a[0]))
      case Err(_) =>
      case Ok(st') => ScanConcat(sha, st', a[1..], b);
    }
  }

  /** Only the trimmed lines matter. */
  lemma {:induction false} ScanTrimmed(sha: Sha256, st: ScanState, a: seq<string>, b: seq<string>)
    requires |a| == |b| && forall i :: 0 <= i < |a| ==> TrimSpace(a[i]) == TrimSpace(b[i])
    ensures Scan(sha, st, a) == Scan(sha, st, b)
    decreases |a|
  {
    hide Step, TrimSpace;
    if a != [] {
      match Step(sha, st, TrimSpace(a[0]))
      case Err(_) =>
      case Ok(st') => ScanTrimmed(sha, st', a[1..], b[1..]);
    }
  }

  // ----- what the printed lines are to the scanner

  /** Both marks hold a space followed by P. */
  lemma MarkHasSpaceP(s: string) returns (i: nat)
    requires HasMark(s)
    ensures i < |s| - 1 && s[i] == ' ' && s[i + 1] == 'P'
  {
    MarkLetters();
    hide BeginMark, EndMark;
    if Contains(s, BeginMark()) {
      i :| 0 <= i <= |s| && OccursAt(s, BeginMark(), i);
      assert s[i..i + |BeginMark()|][5] == s[i + 5] && s[i..i + |BeginMark()|][6] == s[i + 6];
      i := i + 5;
    } else {
      i :| 0 <= i <= |s| && OccursAt(s, EndMark(), i);
      assert s[i..i + |EndMark()|][3] == s[i + 3] && s[i..i + |EndMark()|][4] == s[i + 4];
      i := i + 3;
    }
  }

  lemma MarkLetters()
    ensures |BeginMark()| > 6 && BeginMark()[5] == ' ' && BeginMark()[6] == 'P'
    ensures |EndMark()| > 4 && EndMark()[3] == ' ' && EndMark()[4] == 'P'
  {
  }

  lemma NoMark(s: string)
    requires forall i :: 0 <= i < |s| - 1 && s[i] == ' ' ==> s[i + 1] != 'P'
    ensures !HasMark(s)
  {
    if HasMark(s) {
      var _ := MarkHasSpaceP(s);
    }
  }

  /** A line the scanner passes over, wherever it stands. */
  predicate Ignored(line: string) {
    !HasMark(TrimSpace(line)) && !IsDataLine(TrimSpace(line))
  }

  /** The lines around the data of a share. */
  lemma ShareFrame(fp: string, idx: nat, n: nat, m: nat, payload: seq<byte>)
    ensures var lines := ShareLines(fp, idx, n, m, payload);
      && |lines| > 4 && lines[0] == "-----BEGIN P3SIG RECOVERY SHARE-----" && lines[1] == ShareLine(idx, n, m)
      && lines[2] == FingerprintLine(fp) && lines[3] == ""
      && lines[|lines| - 1] == "-----END P3SIG RECOVERY SHARE-----"
  {
    hide Encode, Chunks, ShareLine, FingerprintLine, ShareBegin, ShareEnd;
    ShareBeginText();
    ShareEndText();
  }

  /** The lines around the data of a single card. */
  lemma CardFrame(fp: string, withPassphrase: bool, payload: seq<byte>)
    ensures var lines := CardLines(fp, withPassphrase, payload);
      && |lines| > 4 && lines[0] == "-----BEGIN P3SIG RECOVERY CARD-----" && lines[1] == FingerprintLine(fp)
      && lines[2] == ProtectionLine(withPassphrase) && lines[3] == ""
      && lines[|lines| - 1] == "-----END P3SIG RECOVERY CARD-----"
  {
    hide Encode, Chunks, ProtectionLine, FingerprintLine, CardBegin, CardEnd;
    CardBeginText();
    CardEndText();
  }

  lemma ShareBeginText()
    ensures ShareBegin() == "-----BEGIN P3SIG RECOVERY SHARE-----"
  {
  }

  lemma ShareEndText()
    ensures ShareEnd() == "-----END P3SIG RECOVERY SHARE-----"
  {
  }

  lemma CardBeginText()
    ensures CardBegin() == "-----BEGIN P3SIG RECOVERY CARD-----"
  {
  }

  lemma CardEndText()
    ensures CardEnd() == "-----END P3SIG RECOVERY CARD-----"
  {
  }

  /** Which number stands where: the second of seven cards, of which three are needed. */
  lemma ShareLabel()
    ensures "share:       2 of 7   (any 3" <= ShareLine(2, 7, 3)
  {
    DecimalDigit(2);
    DecimalDigit(7);
    DecimalDigit(3);
  }

  /** What is said of the protection is what the card has. */
  lemma ProtectionLabel()
    ensures "protection:  NONE" <= ProtectionLine(false) && "protection:  passphrase" <= ProtectionLine(true)
  {
    hide Advice;
  }

  lemma DecimalDigit(n: nat)
    requires n < 10
    ensures Decimal(n) == ['0' + n as char]
  {
  }

  lemma ShareLineIgnored(idx: nat, n: nat, m: nat)
    ensures Ignored(ShareLine(idx, n, m))
  {
    hide HasMark;
    var s := ShareLine(idx, n, m);
    TrimNothing(s);
    assert s[6] == ' ';
    assert 'P' !in s;
    NoP(s);
    assert !IsEncodedChar(s[6]) && s[6] in s;
  }

  /** The fingerprint of a key whose public half hashes to `digest`. */
  function Fingerprint(digest: seq<byte>): string {
    "SHA256:" + Encode(digest)
  }

  lemma FingerprintLabel(digest: seq<byte>)
    ensures "fingerprint: SHA256:" + Encode(digest) <= FingerprintLine(Fingerprint(digest))
  {
    hide Encode;
  }

  /** No " P" in a text whose middle part has no space and does not start with P,
      between two parts without P. */
  lemma NoSpaceP(a: string, fp: string, b: string)
    requires 'P' !in a && 'P' !in b && ' ' !in fp && fp != "" && fp[0] != 'P'
    ensures !HasMark(a + fp + b)
  {
    var s := a + fp + b;
    forall i | 0 <= i < |s| - 1 && s[i] == ' '
      ensures s[i + 1] != 'P'
    {
    }
    NoMark(s);
  }

  lemma FingerprintLineIgnored(digest: seq<byte>)
    ensures Ignored(FingerprintLine(Fingerprint(digest)))
  {
    hide Encode, HasMark, FingerprintTail;
    EncodedChars(digest);
    FingerprintTailPlain();
    var fp := Fingerprint(digest);
    NoSpaceP("fingerprint: ", fp, FingerprintTail());
    var s := FingerprintLine(fp);
    TrimNothing(s);
    assert s[12] == ' ' && s[12] in s && !IsEncodedChar(s[12]);
  }

  lemma FingerprintTailPlain()
    ensures 'P' !in FingerprintTail()
    ensures var b := FingerprintTail(); b != "" && !IsSpace(b[|b| - 1])
  {
  }

  /** A text without P holds no mark. */
  lemma NoP(s: string)
    requires 'P' !in s
    ensures !HasMark(s)
  {
    NoMark(s);
  }

  lemma ProtectionLineIgnored(withPassphrase: bool)
    ensures Ignored(ProtectionLine(withPassphrase))
  {
    hide HasMark;
    var a, b := "protection:  ", ProtectionText(withPassphrase);
    ProtectionTextPlain(withPassphrase);
    var s := ProtectionLine(withPassphrase);
    assert s == a + b && 'P' !in a;
    NoP(s);
    TrimNothing(s);
    assert s[11] == ' ' && s[11] in s && !IsEncodedChar(s[11]);
  }

  lemma ProtectionTextPlain(withPassphrase: bool)
    ensures 'P' !in ProtectionText(withPassphrase)
    ensures var b := ProtectionText(withPassphrase); b != "" && !IsSpace(b[|b| - 1])
  {
    hide ProtectedBy, Advice;
    ProtectedByPlain(withPassphrase);
    AdvicePlain(withPassphrase);
  }

  lemma ProtectedByPlain(withPassphrase: bool)
    ensures 'P' !in ProtectedBy(withPassphrase)
  {
  }

  lemma AdvicePlain(withPassphrase: bool)
    ensures 'P' !in Advice(withPassphrase)
    ensures var b := Advice(withPassphrase); b != "" && !IsSpace(b[|b| - 1])
  {
    hide SealedAdvice, OpenAdvice;
    SealedAdvicePlain();
    OpenAdvicePlain();
  }

  lemma SealedAdvicePlain()
    ensures 'P' !in SealedAdvice()
    ensures var b := SealedAdvice(); b != "" && !IsSpace(b[|b| - 1])
  {
  }

  lemma OpenAdvicePlain()
    ensures 'P' !in OpenAdvice()
    ensures var b := OpenAdvice(); b != "" && !IsSpace(b[|b| - 1])
  {
  }

  lemma EmptyLineIgnored()
    ensures Ignored("")
  {
    NoMark("");
  }

  lemma OccursBetween(a: string, part: string, b: string)
    ensures Contains(a + part + b, part)
  {
    assert (a + part + b)[|a|..|a| + |part|] == part;
    assert OccursAt(a + part + b, part, |a|);
  }

  lemma BeginLines()
    ensures Contains(TrimSpace(ShareBegin()), BeginMark())
    ensures Contains(TrimSpace(CardBegin()), BeginMark())
  {
    hide Contains;
    TrimNothing(ShareBegin());
    TrimNothing(CardBegin());
    OccursBetween("-----", BeginMark(), " SHARE-----");
    OccursBetween("-----", BeginMark(), " CARD-----");
  }

  lemma BeginHasB(s: string)
    requires Contains(s, BeginMark())
    ensures 'B' in s
  {
    var i :| 0 <= i <= |s| && OccursAt(s, BeginMark(), i);
    assert s[i..i + |BeginMark()|][0] == s[i];
  }

  lemma NoBegin(s: string)
    requires 'B' !in s
    ensures !Contains(s, BeginMark())
  {
    if Contains(s, BeginMark()) {
      BeginHasB(s);
    }
  }

  lemma EndLines()
    ensures !Contains(TrimSpace(ShareEnd()), BeginMark()) && Contains(TrimSpace(ShareEnd()), EndMark())
    ensures !Contains(TrimSpace(CardEnd()), BeginMark()) && Contains(TrimSpace(CardEnd()), EndMark())
  {
    hide Contains;
    TrimNothing(ShareEnd());
    TrimNothing(CardEnd());
    NoBegin(ShareEnd());
    NoBegin(CardEnd());
    OccursBetween("-----", EndMark(), " SHARE-----");
    OccursBetween("-----", EndMark(), " CARD-----");
  }

  lemma DataLineScanned(s: string)
    requires IsDataLine(s)
    ensures TrimSpace(s) == s && !HasMark(s)
  {
    assert s[0] in s && s[|s| - 1] in s;
    TrimNothing(s);
    forall i | 0 <= i < |s|
      ensures s[i] != ' '
    {
      assert s[i] in s;
    }
    NoMark(s);
  }

  lemma {:induction false} ScanData(sha: Sha256, text: string, found: Found, lines: seq<string>)
    requires forall l :: l in lines ==> IsDataLine(l)
    ensures Scan(sha, ScanState(true, text, found), lines) == Ok(ScanState(true, text + Concat(lines), found))
    decreases |lines|
  {
    hide TrimSpace, IsDataLine, Contains;
    if lines == [] {
      assert text + "" == text;
    } else {
      assert lines[0] in lines;
      DataLineScanned(lines[0]);
      ScanData(sha, text + lines[0], found, lines[1..]);
      assert text + Concat(lines) == text + lines[0] + Concat(lines[1..]);
    }
  }

  lemma ScanIgnored(sha: Sha256, st: ScanState, line: string)
    requires Ignored(line)
    ensures Step(sha, st, TrimSpace(line)) == Ok(st)
  {
  }

  lemma ScanOne(sha: Sha256, st: ScanState, line: string)
    ensures Scan(sha, st, [line]) == Step(sha, st, TrimSpace(line))
  {
    assert [line][1..] == [];
  }

  /** The opening line and the three lines under it. */
  lemma ScanHead(sha: Sha256, st: ScanState, first: string, head: string, next: string)
    requires Contains(TrimSpace(first), BeginMark())
    requires Ignored(head) && Ignored(next)
    ensures Scan(sha, st, [first, head, next, ""]) == Ok(ScanState(true, "", st.found))
  {
    hide TrimSpace, Contains, Scan, Ignored;
    var within := ScanState(true, "", st.found);
    EmptyLineIgnored();
    ScanOne(sha, st, first);
    ScanOne(sha, within, head);
    ScanIgnored(sha, within, head);
    ScanOne(sha, within, next);
    ScanIgnored(sha, within, next);
    ScanOne(sha, within, "");
    ScanIgnored(sha, within, "");
    ScanConcat(sha, st, [first], [head]);
    ScanConcat(sha, st, [first, head], [next]);
    ScanConcat(sha, st, [first, head, next], [""]);
    assert [first] + [head] == [first, head];
    assert [first, head] + [next] == [first, head, next];
    assert [first, head, next] + [""] == [first, head, next, ""];
  }

  /** A block opens, is gathered and is sorted into what was found, whatever came
      before it. */
  lemma ScanBlock(sha: Sha256, st: ScanState, first: string, head: string, next: string, payload: seq<byte>,
      last: string)
    requires Contains(TrimSpace(first), BeginMark())
    requires Ignored(head) && Ignored(next)
    requires !Contains(TrimSpace(last), BeginMark()) && Contains(TrimSpace(last), EndMark())
    requires payload != []
    ensures Scan(sha, st, BlockLines(first, head, next, payload, last)) ==
      match Sort(sha, st.found, payload) case Err(e) => Err(e) case Ok(found) => Ok(ScanState(false, "", found))
  {
    hide TrimSpace, Contains, Sort, Scan, Ignored, Chunks, Encode, Decode;
    var data := Chunks(Encode(payload));
    ScanHead(sha, st, first, head, next);
    DataOfPayload(payload);
    ScanData(sha, "", st.found, data);
    assert "" + Concat(data) == Encode(payload);
    DecodeEncode(payload);
    ScanOne(sha, ScanState(true, Encode(payload), st.found), last);
    ScanConcat(sha, st, [first, head, next, ""], data);
    ScanConcat(sha, st, [first, head, next, ""] + data, [last]);
  }

  lemma DataOfPayload(payload: seq<byte>)
    requires payload != []
    ensures Concat(Chunks(Encode(payload))) == Encode(payload) != ""
    ensures forall l :: l in Chunks(Encode(payload)) ==> IsDataLine(l)
  {
    EncodedChars(payload);
    ConcatChunks(Encode(payload));
    ChunkChars(Encode(payload));
  }
}
