/** Split recovery end to end: printing share cards, pasting any quorum of them
    back, and getting the key. */
module SplitRecovery {
  import opened Base64
  import opened Gf256
  import opened GfTables
  import opened Polynomials
  import opened Prelude
  import opened Text
  import opened Shamir
  import opened RecoveryCards

  const KEY_SIZE := 64

  // ----- printing the shares

  function SharePayload(sha: Sha256, s: Share): seq<byte> {
    BuildBlob(sha, SHARE_MAGIC, [s.m, s.x] + s.y)
  }

  /** The bytes behind a printed share: magic, threshold, index, data, and four of the hash. */
  lemma PayloadBytes(sha: Sha256, s: Share)
    ensures var front := [0x50, 0x33, 0x53, 0x31, s.m, s.x] + s.y; SharePayload(sha, s) == front + sha(front)[..4]
  {
    assert SHARE_MAGIC + ([s.m, s.x] + s.y) == [0x50, 0x33, 0x53, 0x31, s.m, s.x] + s.y;
  }

  /** The split branch of backup: one printed card per share. */
  method BackupSplit(t: Tables, sha: Sha256, key: seq<byte>, fp: string, m: int, n: int, random: seq<seq<byte>>)
    returns (r: Result<seq<string>, ShamirError>)
    requires t.Valid()
    requires ValidSplit(m, n) ==> Draws(random, |key|, m)
    ensures !ValidSplit(m, n) ==> r == Err(BadSplit)
    ensures ValidSplit(m, n) ==> r.Ok? && |r.value| == n
    ensures ValidSplit(m, n) ==> forall i :: 0 <= i < n ==>
      r.value[i] == Join(ShareLines(fp, i + 1, n, m, SharePayload(sha, ShareAt(key, random, m, i + 1)))) + "\n"
  {
    hide ShareAt, ShareLines, Join;
    var split := ShamirSplit(t, key, m, n, random);
    if split.Err? {
      return Err(split.error);
    }
    var cards: seq<string> := [];
    for i := 0 to n
      invariant |cards| == i
      invariant forall k :: 0 <= k < i ==>
        cards[k] == Join(ShareLines(fp, k + 1, n, m, SharePayload(sha, ShareAt(key, random, m, k + 1)))) + "\n"
    {
      var card := RenderShare(fp, i + 1, n, m, SharePayload(sha, split.value[i]));
      cards := cards + [card];
    }
    r := Ok(cards);
  }

  // ----- restoring

  datatype RestoreError =
    | Scanning(e: ScanError)
    | NeedMoreShares
    | Combining(c: ShamirError)
    | WrongSize
    | NotSingleCard
    | MalformedCard
    | WrongPassphrase
    | UnknownMode

  /** Opens the secretbox of a passphrase card from salt, nonce and ciphertext. */
  type Unseal = (seq<byte>, seq<byte>, seq<byte>) -> Option<seq<byte>>

  /** openSingleCard */
  function OpenSingleCard(sha: Sha256, unseal: Unseal, payload: seq<byte>): Result<seq<byte>, RestoreError> {
    match OpenBlob(sha, payload)
    case Err(e) => Err(Scanning(e))
    case Ok((magic, body)) =>
      if magic != CARD_MAGIC || |body| < 1 then Err(NotSingleCard)
      else
        var mode, rest := body[0], body[1..];
        if mode == 0 then
          if |rest| != KEY_SIZE then Err(MalformedCard) else Ok(rest)
        else if mode == 1 then
          if |rest| < 16 + 24 + 1 then Err(MalformedCard)
          else
            match unseal(rest[..16], rest[16..40], rest[40..])
            case None => Err(WrongPassphrase)
            case Some(plain) => if |plain| != KEY_SIZE then Err(WrongSize) else Ok(plain)
        else Err(UnknownMode)
  }

  /** The result of restoring from `raw`: a card wins over shares, of which the first
      says how many are combined. */
  ghost predicate Restores(sha: Sha256, unseal: Unseal, raw: string, r: Result<seq<byte>, RestoreError>) {
    match Extracted(sha, raw)
    case Err(e) => r == Err(Scanning(e))
    case Ok(Found(cards, shares)) =>
      if cards != [] then r == OpenSingleCard(sha, unseal, cards[0])
      else
        && shares != []
        && var need := shares[0].m;
        if |shares| < need then r == Err(NeedMoreShares)
        else if need == 0 then r == Err(Combining(NoShares))
        else if !Combinable(shares[..need]) then
          r.Err? && r.error.Combining? && FirstFault(shares[..need], r.error.c)
        else r == if |Secret(shares[..need])| != KEY_SIZE then Err(WrongSize) else Ok(Secret(shares[..need]))
  }

  /** The part of restore that turns pasted text into a key. */
  method Restore(t: Tables, sha: Sha256, unseal: Unseal, raw: string) returns (r: Result<seq<byte>, RestoreError>)
    requires t.Valid()
    ensures Restores(sha, unseal, raw, r)
  {
    hide Secret;
    var found := ExtractBlocks(sha, raw);
    if found.Err? {
      return Err(Scanning(found.error));
    }
    var Found(cards, shares) := found.value;
    if |cards| > 0 {
      return OpenSingleCard(sha, unseal, cards[0]);
    }
    var need := shares[0].m;
    if |shares| < need {
      return Err(NeedMoreShares);
    }
    var secret := ShamirCombine(t, shares[..need]);
    if secret.Err? {
      return Err(Combining(secret.error));
    }
    if |secret.value| != KEY_SIZE {
      return Err(WrongSize);
    }
    r := Ok(secret.value);
  }

  // ----- pasted text

  /** A share as printed: whose key, which labels, what share. */
  datatype Printed = Printed(digest: seq<byte>, idx: nat, n: nat, share: Share)

  function PrintedLines(sha: Sha256, p: Printed): seq<string> {
    ShareLines(Fingerprint(p.digest), p.idx, p.n, p.share.m, SharePayload(sha, p.share))
  }

  /** The blocks with the filler lines before, between and after them. */
  function Document(fillers: seq<seq<string>>, blocks: seq<seq<string>>): seq<string>
    requires |fillers| == |blocks| + 1
  {
    if blocks == [] then fillers[0]
    else fillers[0] + blocks[0] + Document(fillers[1..], blocks[1..])
  }

  /** Lines that hold neither mark. */
  ghost predicate MarkerFree(lines: seq<string>) {
    forall l :: l in lines ==> !HasMark(TrimSpace(l))
  }

  /** `raw` shows these lines, each possibly with white space around it. */
  ghost predicate Shows(raw: string, lines: seq<string>) {
    && |Split(raw)| == |lines|
    && forall i :: 0 <= i < |lines| ==> TrimSpace(Split(raw)[i]) == TrimSpace(lines[i])
  }

  lemma {:induction false} ScanFiller(sha: Sha256, found: Found, lines: seq<string>)
    requires MarkerFree(lines)
    ensures Scan(sha, ScanState(false, "", found), lines) == Ok(ScanState(false, "", found))
    decreases |lines|
  {
    hide TrimSpace, Contains;
    if lines != [] {
      assert lines[0] in lines;
      ScanFiller(sha, found, lines[1..]);
    }
  }

  lemma ScanShare(sha: Sha256, found: Found, p: Printed)
    ensures Scan(sha, ScanState(false, "", found), PrintedLines(sha, p)) ==
      Ok(ScanState(false, "", found.(shares := found.shares + [p.share])))
  {
    hide Scan, TrimSpace, Contains, Ignored, ShareBegin, ShareEnd, ShareLine, FingerprintLine, Fingerprint, OpenBlob,
      BuildBlob;
    var payload, body := SharePayload(sha, p.share), [p.share.m, p.share.x] + p.share.y;
    BeginLines();
    EndLines();
    ShareLineIgnored(p.idx, p.n, p.share.m);
    FingerprintLineIgnored(p.digest);
    OpenIffBuilt(sha, payload, SHARE_MAGIC, body);
    PayloadNotEmpty(sha, p.share);
    ScanBlock(sha, ScanState(false, "", found), ShareBegin(), ShareLine(p.idx, p.n, p.share.m),
      FingerprintLine(Fingerprint(p.digest)), payload, ShareEnd());
    assert body[2..] == p.share.y;
  }

  lemma PayloadNotEmpty(sha: Sha256, s: Share)
    ensures SharePayload(sha, s) != []
  {
  }

  function Blocks(sha: Sha256, ps: seq<Printed>): (r: seq<seq<string>>)
    ensures |r| == |ps| && forall i :: 0 <= i < |ps| ==> r[i] == PrintedLines(sha, ps[i])
  {
    seq(|ps|, i requires 0 <= i < |ps| => PrintedLines(sha, ps[i]))
  }

  function SharesOf(ps: seq<Printed>): (r: seq<Share>)
    ensures |r| == |ps|
  {
    seq(|ps|, i requires 0 <= i < |ps| => ps[i].share)
  }

  lemma DocumentUnfold(fillers: seq<seq<string>>, blocks: seq<seq<string>>)
    requires |fillers| == |blocks| + 1 && blocks != []
    ensures Document(fillers, blocks) == fillers[0] + blocks[0] + Document(fillers[1..], blocks[1..])
  {
  }

  lemma BlocksStep(sha: Sha256, ps: seq<Printed>)
    requires ps != []
    ensures Blocks(sha, ps)[0] == PrintedLines(sha, ps[0]) && Blocks(sha, ps)[1..] == Blocks(sha, ps[1..])
  {
    hide PrintedLines, Blocks;
    var rest, blocks := Blocks(sha, ps[1..]), Blocks(sha, ps)[1..];
    forall i | 0 <= i < |rest|
      ensures blocks[i] == rest[i]
    {
      assert ps[1..][i] == ps[i + 1];
    }
  }

  lemma DocumentStep(sha: Sha256, fillers: seq<seq<string>>, ps: seq<Printed>)
    requires |fillers| == |ps| + 1 && ps != []
    ensures Document(fillers, Blocks(sha, ps)) ==
      fillers[0] + PrintedLines(sha, ps[0]) + Document(fillers[1..], Blocks(sha, ps[1..]))
  {
    hide PrintedLines, Document, Blocks;
    BlocksStep(sha, ps);
    DocumentUnfold(fillers, Blocks(sha, ps));
  }

  lemma SharesStep(shares: seq<Share>, ps: seq<Printed>)
    ensures ps == [] ==> shares + SharesOf(ps) == shares
    ensures ps != [] ==> shares + SharesOf(ps) == shares + [ps[0].share] + SharesOf(ps[1..])
  {
  }

  lemma {:induction false} ScanDocument(sha: Sha256, found: Found, fillers: seq<seq<string>>, ps: seq<Printed>)
    requires |fillers| == |ps| + 1 && forall f :: f in fillers ==> MarkerFree(f)
    ensures Scan(sha, ScanState(false, "", found), Document(fillers, Blocks(sha, ps))) ==
      Ok(ScanState(false, "", found.(shares := found.shares + SharesOf(ps))))
    decreases |ps|
  {
    hide Scan, TrimSpace, Contains, MarkerFree, PrintedLines, SharesOf, Blocks;
    var st := ScanState(false, "", found);
    assert fillers[0] in fillers;
    ScanFiller(sha, found, fillers[0]);
    SharesStep(found.shares, ps);
    if ps != [] {
      hide Document;
      var found' := found.(shares := found.shares + [ps[0].share]);
      var rest := Document(fillers[1..], Blocks(sha, ps[1..]));
      DocumentStep(sha, fillers, ps);
      ScanShare(sha, found, ps[0]);
      ScanDocument(sha, found', fillers[1..], ps[1..]);
      ScanConcat(sha, st, fillers[0], PrintedLines(sha, ps[0]));
      ScanConcat(sha, st, fillers[0] + PrintedLines(sha, ps[0]), rest);
    }
  }

  /** Pasted cards parse back to their shares in the order in which they appear. */
  lemma ExtractPrinted(sha: Sha256, raw: string, fillers: seq<seq<string>>, ps: seq<Printed>)
    requires ps != [] && |fillers| == |ps| + 1 && forall f :: f in fillers ==> MarkerFree(f)
    requires Shows(raw, Document(fillers, Blocks(sha, ps)))
    ensures Extracted(sha, raw) == Ok(Found([], SharesOf(ps)))
  {
    hide Scan, TrimSpace, Contains, Document, Blocks, MarkerFree;
    ScanTrimmed(sha, START, Split(raw), Document(fillers, Blocks(sha, ps)));
    ScanDocument(sha, Found([], []), fillers, ps);
    assert [] + SharesOf(ps) == SharesOf(ps);
  }

  /** The printed card of the share at `x`. */
  ghost function CardAt(key: seq<byte>, random: seq<seq<byte>>, m: nat, n: nat, digest: seq<byte>, x: byte): Printed
    requires m < 256 && |random| == |key|
  {
    Printed(digest, x, n, ShareAt(key, random, m, x))
  }

  /** At least m distinct indices between 1 and n, in any order. */
  ghost predicate Quorum(order: seq<byte>, m: nat, n: nat) {
    Distinct(order) && |order| >= m && forall i :: 0 <= i < |order| ==> 1 <= order[i] <= n
  }

  /** `ps` are the cards of the shares in `order` of one split of `key`. */
  ghost predicate CardsOf(ps: seq<Printed>, order: seq<byte>, key: seq<byte>, random: seq<seq<byte>>, m: nat,
      n: nat, digest: seq<byte>)
    requires m < 256 && |random| == |key|
  {
    |ps| == |order| && forall i :: 0 <= i < |ps| ==> ps[i] == CardAt(key, random, m, n, digest, order[i])
  }

  lemma QuorumRestores(key: seq<byte>, random: seq<seq<byte>>, m: nat, n: nat, digest: seq<byte>, order: seq<byte>,
      ps: seq<Printed>)
    requires ValidSplit(m, n) && Draws(random, |key|, m)
    requires Quorum(order, m, n) && CardsOf(ps, order, key, random, m, n, digest)
    ensures SharesOf(ps)[0].m == m
    ensures Combinable(SharesOf(ps)[..m]) && Secret(SharesOf(ps)[..m]) == key
  {
    hide Secret, Combinable, Eval;
    var picked := order[..m];
    assert forall x :: x in picked ==> 1 <= x <= n;
    Reconstruction(key, random, m, n, picked, SharesOf(ps)[..m]);
  }

  lemma QuorumCombines(sha: Sha256, unseal: Unseal, raw: string, shares: seq<Share>, m: nat, key: seq<byte>,
      r: Result<seq<byte>, RestoreError>)
    requires Extracted(sha, raw) == Ok(Found([], shares)) && 0 < m <= |shares| && shares[0].m == m
    requires Combinable(shares[..m]) && Secret(shares[..m]) == key
    requires Restores(sha, unseal, raw, r)
    ensures r == if |key| == KEY_SIZE then Ok(key) else Err(WrongSize)
  {
    hide Extracted, Combinable, Secret;
  }

  /** Any m or more distinct cards of one split, pasted in any order among other
      text, restore the key; of what is no key they restore nothing. */
  lemma PrintedRecovery(sha: Sha256, unseal: Unseal, key: seq<byte>, random: seq<seq<byte>>, m: nat, n: nat,
      digest: seq<byte>,
      order: seq<byte>, ps: seq<Printed>, fillers: seq<seq<string>>, raw: string, r: Result<seq<byte>, RestoreError>)
    requires ValidSplit(m, n) && Draws(random, |key|, m)
    requires Quorum(order, m, n) && CardsOf(ps, order, key, random, m, n, digest)
    requires |fillers| == |ps| + 1 && forall f :: f in fillers ==> MarkerFree(f)
    requires Shows(raw, Document(fillers, Blocks(sha, ps))) && Restores(sha, unseal, raw, r)
    ensures Extracted(sha, raw) == Ok(Found([], SharesOf(ps)))
    ensures r == if |key| == 64 then Ok(key) else Err(WrongSize)
  {
    QuorumRestores(key, random, m, n, digest, order, ps);
    assert 0 < m <= |ps|;
    hide *;
    ExtractPrinted(sha, raw, fillers, ps);
    QuorumCombines(sha, unseal, raw, SharesOf(ps), m, key, r);
  }

  /** Fewer cards than the first one asks for restore nothing, and say so. */
  lemma TooFewCards(sha: Sha256, unseal: Unseal, fillers: seq<seq<string>>, ps: seq<Printed>, raw: string,
      r: Result<seq<byte>, RestoreError>)
    requires ps != [] && |ps| < ps[0].share.m && |fillers| == |ps| + 1 && forall f :: f in fillers ==> MarkerFree(f)
    requires Shows(raw, Document(fillers, Blocks(sha, ps))) && Restores(sha, unseal, raw, r)
    ensures r == Err(NeedMoreShares)
  {
    hide Extracted, MarkerFree, Document, Blocks, Shows, Combinable, Secret;
    ExtractPrinted(sha, raw, fillers, ps);
  }

  /** Two shares of which combining takes only one. */
  lemma UnusableShares(sha: Sha256, unseal: Unseal, raw: string, shares: seq<Share>, r: Result<seq<byte>, RestoreError>,
      i: nat, j: nat)
    requires Extracted(sha, raw) == Ok(Found([], shares)) && i < j < |shares| && j < shares[0].m <= |shares|
    requires Restores(sha, unseal, raw, r)
    ensures |shares[i].y| != |shares[j].y| || shares[i].x == shares[j].x ==> r.Err? && r.error.Combining?
    ensures shares[i].x == shares[j].x && (forall s :: s in shares ==> |s.y| == |shares[0].y|) ==>
      r == Err(Combining(BadIndex))
  {
    hide Extracted, Secret;
    var first := shares[..shares[0].m];
    assert first[i] == shares[i] && first[j] == shares[j] && first[i] in first && first[j] in first;
    assert Xs(first)[i] == shares[i].x && Xs(first)[j] == shares[j].x;
    assert forall s :: s in first ==> s in shares;
  }

  lemma SameLengths(ps: seq<Printed>, i: nat)
    requires i < |ps|
    ensures SharesOf(ps)[i] == ps[i].share && SharesOf(ps)[0] == ps[0].share
    ensures (forall p :: p in ps ==> |p.share.y| == |ps[0].share.y|) ==>
      forall s :: s in SharesOf(ps) ==> |s.y| == |SharesOf(ps)[0].y|
  {
    assert forall k :: 0 <= k < |ps| ==> ps[k] in ps;
  }

  /** The same card twice among as many as the first one asks for is refused, and so are
      cards of keys of different lengths. */
  lemma UnusableCards(sha: Sha256, unseal: Unseal, fillers: seq<seq<string>>, ps: seq<Printed>, raw: string,
      r: Result<seq<byte>, RestoreError>, i: nat, j: nat)
    requires i < j < |ps| && j < ps[0].share.m <= |ps|
    requires |fillers| == |ps| + 1 && forall f :: f in fillers ==> MarkerFree(f)
    requires Shows(raw, Document(fillers, Blocks(sha, ps))) && Restores(sha, unseal, raw, r)
    ensures |ps[i].share.y| != |ps[j].share.y| || ps[i].share.x == ps[j].share.x ==> r.Err? && r.error.Combining?
    ensures ps[i].share.x == ps[j].share.x && (forall p :: p in ps ==> |p.share.y| == |ps[0].share.y|) ==>
      r == Err(Combining(BadIndex))
  {
    hide *;
    SameLengths(ps, i);
    SameLengths(ps, j);
    ExtractPrinted(sha, raw, fillers, ps);
    UnusableShares(sha, unseal, raw, SharesOf(ps), r, i, j);
  }

  lemma OneFirstFault(shares: seq<Share>, e: ShamirError, e': ShamirError)
    requires FirstFault(shares, e) && FirstFault(shares, e')
    ensures e == e'
  {
    hide Faulty;
  }

  lemma FirstSharesDecide(sha: Sha256, unseal: Unseal, raw: string, shares: seq<Share>,
      r: Result<seq<byte>, RestoreError>, raw': string, shares': seq<Share>, r': Result<seq<byte>, RestoreError>)
    requires Extracted(sha, raw) == Ok(Found([], shares)) && Extracted(sha, raw') == Ok(Found([], shares'))
    requires shares != [] && shares' != [] && shares[0] == shares'[0]
    requires shares[0].m <= |shares| && shares[0].m <= |shares'| && shares[..shares[0].m] == shares'[..shares[0].m]
    requires Restores(sha, unseal, raw, r) && Restores(sha, unseal, raw', r')
    ensures r == r'
  {
    hide Extracted, Combinable, Secret, FirstFault;
    var first := shares[..shares[0].m];
    if first != [] && !Combinable(first) {
      OneFirstFault(first, r.error.c, r'.error.c);
    }
  }

  lemma SameFirstShares(ps: seq<Printed>, ps': seq<Printed>, m: nat)
    requires m <= |ps| && m <= |ps'| && ps[..m] == ps'[..m] && ps != [] && ps' != [] && ps[0] == ps'[0]
    ensures SharesOf(ps)[..m] == SharesOf(ps')[..m]
    ensures SharesOf(ps)[0] == ps[0].share && SharesOf(ps')[0] == ps[0].share
  {
    assert forall i :: 0 <= i < m ==> ps[i] == ps[..m][i] && ps'[i] == ps'[..m][i];
  }

  /** Cards beyond as many as the first one asks for do not matter, be they of another split
      or unusable. */
  lemma FirstCardsDecide(sha: Sha256, unseal: Unseal, fillers: seq<seq<string>>, ps: seq<Printed>, raw: string,
      r: Result<seq<byte>, RestoreError>, fillers': seq<seq<string>>, ps': seq<Printed>, raw': string,
      r': Result<seq<byte>, RestoreError>)
    requires |fillers| == |ps| + 1 && (forall f :: f in fillers ==> MarkerFree(f))
    requires |fillers'| == |ps'| + 1 && (forall f :: f in fillers' ==> MarkerFree(f))
    requires ps != [] && ps' != [] && ps[0].share.m <= |ps| && ps[0].share.m <= |ps'| && ps[0] == ps'[0]
    requires ps[..ps[0].share.m] == ps'[..ps[0].share.m]
    requires Shows(raw, Document(fillers, Blocks(sha, ps))) && Restores(sha, unseal, raw, r)
    requires Shows(raw', Document(fillers', Blocks(sha, ps'))) && Restores(sha, unseal, raw', r')
    ensures r == r'
  {
    SameFirstShares(ps, ps', ps[0].share.m);
    hide *;
    ExtractPrinted(sha, raw, fillers, ps);
    ExtractPrinted(sha, raw', fillers', ps');
    FirstSharesDecide(sha, unseal, raw, SharesOf(ps), r, raw', SharesOf(ps'), r');
  }

  // ----- the pasted text as a concatenation of cards

  /** Text of whole lines. */
  function LinesText(lines: seq<string>): string {
    if lines == [] then "" else lines[0] + "\n" + LinesText(lines[1..])
  }

  function DocumentText(fillers: seq<seq<string>>, cards: seq<string>): string
    requires |fillers| == |cards| + 1
  {
    if cards == [] then LinesText(fillers[0])
    else LinesText(fillers[0]) + cards[0] + DocumentText(fillers[1..], cards[1..])
  }

  ghost predicate Lines(lines: seq<string>) {
    forall l :: l in lines ==> '\n' !in l
  }

  lemma {:induction false} SplitLinesText(lines: seq<string>, rest: string)
    requires Lines(lines)
    ensures Split(LinesText(lines) + rest) == lines + Split(rest)
  {
    hide Split;
    if lines == [] {
      assert LinesText(lines) + rest == rest;
    } else {
      assert lines[0] in lines;
      SplitLinesText(lines[1..], rest);
      SplitLine(lines[0]);
      SplitConcat(lines[0], LinesText(lines[1..]) + rest);
      assert LinesText(lines) + rest == lines[0] + "\n" + (LinesText(lines[1..]) + rest);
      assert lines + Split(rest) == [lines[0]] + (lines[1..] + Split(rest));
    }
  }

  /** The lines of fillers and cards written one after another. */
  lemma {:induction false} SplitDocumentText(fillers: seq<seq<string>>, cards: seq<string>, blocks: seq<seq<string>>)
    requires |fillers| == |cards| + 1 == |blocks| + 1
    requires forall f :: f in fillers ==> Lines(f)
    requires forall i :: 0 <= i < |cards| ==>
      blocks[i] != [] && Lines(blocks[i]) && cards[i] == Join(blocks[i]) + "\n"
    ensures Split(DocumentText(fillers, cards)) == Document(fillers, blocks) + [""]
    decreases |cards|
  {
    hide Split, Join, Lines, LinesText;
    assert fillers[0] in fillers;
    if cards == [] {
      SplitLinesText(fillers[0], "");
      assert LinesText(fillers[0]) + "" == LinesText(fillers[0]);
      SplitEmpty();
    } else {
      var rest := DocumentText(fillers[1..], cards[1..]);
      SplitDocumentText(fillers[1..], cards[1..], blocks[1..]);
      SplitLinesText(fillers[0], cards[0] + rest);
      assert LinesText(fillers[0]) + cards[0] + rest == LinesText(fillers[0]) + (cards[0] + rest);
      SplitCard(blocks[0], rest);
      assert fillers[0] + (blocks[0] + (Document(fillers[1..], blocks[1..]) + [""])) == Document(fillers, blocks)
        + [""];
    }
  }

  lemma SplitCard(block: seq<string>, rest: string)
    requires block != [] && Lines(block)
    ensures Split(Join(block) + "\n" + rest) == block + Split(rest)
  {
    hide Split;
    SplitJoin(block);
    SplitConcat(Join(block), rest);
  }

  lemma EncodedHasNoBreak(text: string)
    requires forall c :: c in text ==> IsEncodedChar(c)
    ensures '\n' !in text
  {
  }

  lemma ShareLineHasNoBreak(idx: nat, n: nat, m: nat)
    ensures '\n' !in ShareLine(idx, n, m)
  {
    hide Decimal;
  }

  lemma FingerprintLineHasNoBreak(digest: seq<byte>)
    ensures '\n' !in FingerprintLine(Fingerprint(digest))
  {
    hide Encode;
    EncodedChars(digest);
    EncodedHasNoBreak(Encode(digest));
  }

  lemma MarksHaveNoBreak()
    ensures '\n' !in ShareBegin() && '\n' !in ShareEnd()
  {
  }

  lemma ChunksHaveNoBreak(payload: seq<byte>)
    ensures Lines(Chunks(Encode(payload)))
  {
    hide Encode, Chunks;
    EncodedChars(payload);
    EncodedHasNoBreak(Encode(payload));
    ChunkChars(Encode(payload));
  }

  lemma ShareLinesAreLines(fp: string, idx: nat, n: nat, m: nat, payload: seq<byte>)
    requires '\n' !in FingerprintLine(fp)
    ensures Lines(ShareLines(fp, idx, n, m, payload)) && ShareLines(fp, idx, n, m, payload) != []
  {
    hide Encode, Chunks, ShareLine, FingerprintLine, ShareBegin, ShareEnd;
    ShareLineHasNoBreak(idx, n, m);
    MarksHaveNoBreak();
    ChunksHaveNoBreak(payload);
  }

  lemma {:induction false} DocumentEnd(fillers: seq<seq<string>>, blocks: seq<seq<string>>)
    requires |fillers| == |blocks| + 1
    ensures Document(fillers, blocks) + [""] == Document(fillers[|blocks| := fillers[|blocks|] + [""]], blocks)
    decreases |blocks|
  {
    var n := |blocks|;
    var more := fillers[n := fillers[n] + [""]];
    if blocks != [] {
      DocumentEnd(fillers[1..], blocks[1..]);
      assert more[1..] == fillers[1..][n - 1 := fillers[n] + [""]];
      DocumentUnfold(more, blocks);
      DocumentUnfold(fillers, blocks);
      hide Document;
      LineAtEnd(fillers[0], blocks[0], Document(fillers[1..], blocks[1..]));
    }
  }

  lemma LineAtEnd(a: seq<string>, b: seq<string>, c: seq<string>)
    ensures a + b + (c + [""]) == a + b + c + [""]
  {
  }

  lemma BlankIsMarkerFree(lines: seq<string>)
    requires MarkerFree(lines)
    ensures MarkerFree(lines + [""])
  {
    hide HasMark;
    EmptyLineIgnored();
  }

  /** The exact text that the split printed, whole cards one after another with whole
      lines of other text around them, restores the key. */
  lemma PastedCardsRestore(sha: Sha256, unseal: Unseal, key: seq<byte>, random: seq<seq<byte>>, m: nat, n: nat,
      digest: seq<byte>,
      order: seq<byte>, cards: seq<string>, fillers: seq<seq<string>>, r: Result<seq<byte>, RestoreError>)
    requires ValidSplit(m, n) && Draws(random, |key|, m) && Quorum(order, m, n)
    requires |cards| == |order| && |fillers| == |cards| + 1
    requires forall i :: 0 <= i < |cards| ==>
      cards[i] == Join(ShareLines(Fingerprint(digest), order[i], n, m,
        SharePayload(sha, ShareAt(key, random, m, order[i])))) + "\n"
    requires forall f :: f in fillers ==> Lines(f) && MarkerFree(f)
    requires Restores(sha, unseal, DocumentText(fillers, cards), r)
    ensures r == if |key| == 64 then Ok(key) else Err(WrongSize)
  {
    hide Restores, Extracted, Join, ShareLines, Lines, MarkerFree, Document, DocumentText, Split, TrimSpace, ShareAt;
    var ps := seq(|order|, i requires 0 <= i < |order| => CardAt(key, random, m, n, digest, order[i]));
    var blocks, raw := Blocks(sha, ps), DocumentText(fillers, cards);
    CardsAreOfShares(key, random, m, n, digest, order, ps);
    forall i | 0 <= i < |cards|
      ensures blocks[i] != [] && Lines(blocks[i]) && cards[i] == Join(blocks[i]) + "\n"
    {
      CardLinesOf(sha, key, random, m, n, digest, order[i]);
    }
    SplitDocumentText(fillers, cards, blocks);
    DocumentEnd(fillers, blocks);
    var more := fillers[|blocks| := fillers[|blocks|] + [""]];
    assert fillers[|blocks|] in fillers;
    BlankIsMarkerFree(fillers[|blocks|]);
    PrintedRecovery(sha, unseal, key, random, m, n, digest, order, ps, more, raw, r);
  }

  lemma CardsAreOfShares(key: seq<byte>, random: seq<seq<byte>>, m: nat, n: nat, digest: seq<byte>,
      order: seq<byte>, ps: seq<Printed>)
    requires m < 256 && |random| == |key| && |ps| == |order|
    requires forall i :: 0 <= i < |ps| ==> ps[i] == CardAt(key, random, m, n, digest, order[i])
    ensures CardsOf(ps, order, key, random, m, n, digest)
  {
  }

  lemma CardLinesOf(sha: Sha256, key: seq<byte>, random: seq<seq<byte>>, m: nat, n: nat, digest: seq<byte>, x: byte)
    requires m < 256 && |random| == |key|
    ensures var lines := ShareLines(Fingerprint(digest), x, n, m, SharePayload(sha, ShareAt(key, random, m, x)));
      lines != [] && Lines(lines) && PrintedLines(sha, CardAt(key, random, m, n, digest, x)) == lines
  {
    FingerprintLineHasNoBreak(digest);
    ShareLinesAreLines(Fingerprint(digest), x, n, m, SharePayload(sha, ShareAt(key, random, m, x)));
    hide Lines, ShareLines, SharePayload, Fingerprint, FingerprintLine, Eval;
  }

  // ----- damaged blocks

  /** A block as it may be pasted: an opening line, lines that say nothing, data lines and a
      closing line. */
  ghost predicate IsBlock(block: seq<string>, data: seq<string>) {
    exists first, head, last ::
      && block == [first] + head + data + [last]
      && Contains(TrimSpace(first), BeginMark())
      && (forall l :: l in head ==> Ignored(l)) && (forall l :: l in data ==> IsDataLine(l))
      && !Contains(TrimSpace(last), BeginMark()) && Contains(TrimSpace(last), EndMark())
  }

  /** A frame: magic, body and the first four bytes of their hash. */
  ghost predicate Framed(sha: Sha256, p: seq<byte>, magic: seq<byte>, body: seq<byte>) {
    |magic| == 4 && p == magic + body + sha(magic + body)[..4]
  }

  ghost predicate OtherFrame(sha: Sha256, p: seq<byte>) {
    exists magic, body :: Framed(sha, p, magic, body)
      && magic != [0x50, 0x33, 0x52, 0x31] && magic != [0x50, 0x33, 0x53, 0x31]
  }

  ghost predicate ShortShare(sha: Sha256, p: seq<byte>) {
    exists body :: Framed(sha, p, [0x50, 0x33, 0x53, 0x31], body) && |body| < 2
  }

  /** What is wrong with the data of a block: it is not base64, too short for a frame, not
      framed at all, framed with another magic, or a share without threshold and index. */
  ghost predicate Damaged(sha: Sha256, text: string, e: ScanError) {
    && text != ""
    && match Decode(text)
       case None => e == BadBase64
       case Some(p) =>
         || (e == NotACard && |p| < 8)
         || (e == BadChecksum && |p| >= 8 && forall magic, body :: !Framed(sha, p, magic, body))
         || (e == Unrecognised && OtherFrame(sha, p))
         || (e == MalformedShare && ShortShare(sha, p))
  }

  lemma SortUnframed(sha: Sha256, found: Found, p: seq<byte>)
    ensures |p| < 8 ==> Sort(sha, found, p) == Err(NotACard)
    ensures |p| >= 8 && (forall magic, body :: !Framed(sha, p, magic, body)) ==>
      Sort(sha, found, p) == Err(BadChecksum)
  {
    if |p| >= 8 {
      var pre, sum := p[..|p| - 4], p[|p| - 4..];
      if sha(pre)[..4] == sum {
        assert pre[..4] + pre[4..] == pre && pre + sum == p;
        assert Framed(sha, p, pre[..4], pre[4..]);
      }
    }
  }

  lemma SortFramed(sha: Sha256, found: Found, p: seq<byte>, magic: seq<byte>, body: seq<byte>)
    requires Framed(sha, p, magic, body)
    ensures magic != CARD_MAGIC && magic != SHARE_MAGIC ==> Sort(sha, found, p) == Err(Unrecognised)
    ensures magic == SHARE_MAGIC && |body| < 2 ==> Sort(sha, found, p) == Err(MalformedShare)
  {
    hide OpenBlob;
    OpenIffBuilt(sha, p, magic, body);
  }

  lemma SortDamaged(sha: Sha256, found: Found, text: string, e: ScanError)
    requires Damaged(sha, text, e)
    ensures Flush(sha, text, found) == Err(e)
  {
    hide Decode, Sort, Framed;
    if Decode(text).Some? {
      var p := Decode(text).value;
      SortUnframed(sha, found, p);
      if e == Unrecognised {
        var magic, body :| Framed(sha, p, magic, body)
          && magic != [0x50, 0x33, 0x52, 0x31] && magic != [0x50, 0x33, 0x53, 0x31];
        SortFramed(sha, found, p, magic, body);
      } else if e == MalformedShare {
        var body :| Framed(sha, p, [0x50, 0x33, 0x53, 0x31], body) && |body| < 2;
        SortFramed(sha, found, p, [0x50, 0x33, 0x53, 0x31], body);
      }
    }
  }

  lemma {:induction false} ScanIgnoredLines(sha: Sha256, st: ScanState, lines: seq<string>)
    requires forall l :: l in lines ==> Ignored(l)
    ensures Scan(sha, st, lines) == Ok(st)
    decreases |lines|
  {
    hide TrimSpace, Contains, Ignored;
    if lines != [] {
      assert lines[0] in lines;
      ScanIgnored(sha, st, lines[0]);
      ScanIgnoredLines(sha, st, lines[1..]);
    }
  }

  /** In whatever state it is met, a damaged block ends the scan with its error. */
  lemma ScanDamaged(sha: Sha256, st: ScanState, block: seq<string>, data: seq<string>, e: ScanError)
    requires IsBlock(block, data) && Damaged(sha, Concat(data), e)
    ensures Scan(sha, st, block) == Err(e)
  {
    hide TrimSpace, Contains, Scan, Ignored, Flush, Decode, Damaged, IsDataLine;
    var first, head, last :|
      && block == [first] + head + data + [last]
      && Contains(TrimSpace(first), BeginMark())
      && (forall l :: l in head ==> Ignored(l)) && (forall l :: l in data ==> IsDataLine(l))
      && !Contains(TrimSpace(last), BeginMark()) && Contains(TrimSpace(last), EndMark());
    var within := ScanState(true, "", st.found);
    ScanOne(sha, st, first);
    ScanIgnoredLines(sha, within, head);
    ScanData(sha, "", st.found, data);
    assert "" + Concat(data) == Concat(data);
    SortDamaged(sha, st.found, Concat(data), e);
    ScanOne(sha, ScanState(true, Concat(data), st.found), last);
    ScanConcat(sha, st, [first], head);
    ScanConcat(sha, st, [first] + head, data);
    ScanConcat(sha, st, [first] + head + data, [last]);
  }

  /** A damaged block is reported, not skipped: after any text that scans, and whatever
      follows it, extracting ends with its error. */
  lemma DamageEndsScan(sha: Sha256, unseal: Unseal, raw: string, before: seq<string>, block: seq<string>,
      data: seq<string>, after: seq<string>, e: ScanError, r: Result<seq<byte>, RestoreError>)
    requires IsBlock(block, data) && Damaged(sha, Concat(data), e)
    requires Scan(sha, START, before).Ok? && Shows(raw, before + block + after)
    requires Restores(sha, unseal, raw, r)
    ensures Extracted(sha, raw) == Err(e) && r == Err(Scanning(e))
  {
    hide Scan, TrimSpace, IsBlock, Damaged, Split;
    ScanTrimmed(sha, START, Split(raw), before + block + after);
    ScanDamaged(sha, Scan(sha, START, before).value, block, data, e);
    ScanConcat(sha, START, before, block);
    ScanConcat(sha, START, before + block, after);
  }

  /** In particular after any intact cards: however many good shares come first, restoring
      reports the damaged one instead of going on without it. */
  lemma DamageReported(sha: Sha256, unseal: Unseal, raw: string, fillers: seq<seq<string>>, ps: seq<Printed>,
      block: seq<string>, data: seq<string>, after: seq<string>, e: ScanError, r: Result<seq<byte>, RestoreError>)
    requires |fillers| == |ps| + 1 && forall f :: f in fillers ==> MarkerFree(f)
    requires IsBlock(block, data) && Damaged(sha, Concat(data), e)
    requires Shows(raw, Document(fillers, Blocks(sha, ps)) + block + after) && Restores(sha, unseal, raw, r)
    ensures Extracted(sha, raw) == Err(e) && r == Err(Scanning(e))
  {
    hide Scan, MarkerFree, Document, Blocks, IsBlock, Damaged, Shows, Restores, Extracted;
    ScanDocument(sha, Found([], []), fillers, ps);
    DamageEndsScan(sha, unseal, raw, Document(fillers, Blocks(sha, ps)), block, data, after, e, r);
  }

  /** A block without data lines adds nothing and is no error. */
  lemma EmptyBlockIgnored(sha: Sha256, st: ScanState, block: seq<string>)
    requires IsBlock(block, [])
    ensures Scan(sha, st, block) == Ok(ScanState(false, "", st.found))
  {
    hide TrimSpace, Contains, Scan, Ignored, Decode, IsDataLine;
    var first, head, last :|
      && block == [first] + head + [] + [last]
      && Contains(TrimSpace(first), BeginMark()) && (forall l :: l in head ==> Ignored(l))
      && !Contains(TrimSpace(last), BeginMark()) && Contains(TrimSpace(last), EndMark());
    var within := ScanState(true, "", st.found);
    ScanOne(sha, st, first);
    ScanIgnoredLines(sha, within, head);
    ScanOne(sha, within, last);
    ScanConcat(sha, st, [first], head);
    ScanConcat(sha, st, [first] + head, [last]);
    assert block == [first] + head + [last];
  }

  /** Text without marks holds nothing. */
  lemma NothingWithoutMarks(sha: Sha256, unseal: Unseal, raw: string, lines: seq<string>, r: Result<seq<byte>,
      RestoreError>)
    requires MarkerFree(lines) && Shows(raw, lines) && Restores(sha, unseal, raw, r)
    ensures r == Err(Scanning(NothingFound))
  {
    hide Scan, TrimSpace, MarkerFree, Split;
    ScanTrimmed(sha, START, Split(raw), lines);
    ScanFiller(sha, Found([], []), lines);
  }

  // ----- the single recovery card

  /** Passphrase protection: salt, nonce and secretbox ciphertext. */
  datatype Protection = Protection(salt: seq<byte>, nonce: seq<byte>, ct: seq<byte>)

  /** The body of a single card, with or without a passphrase. */
  function CardBody(key: seq<byte>, protection: Option<Protection>): seq<byte> {
    match protection
    case None => [0] + key
    case Some(p) => [1] + (p.salt + p.nonce + p.ct)
  }

  /** Nothing to open, or a box of the printed sizes that opens to the key. */
  predicate Protects(unseal: Unseal, key: seq<byte>, protection: Option<Protection>) {
    match protection
    case None => true
    case Some(p) => |p.salt| == 16 && |p.nonce| == 24 && p.ct != [] && unseal(p.salt, p.nonce, p.ct) == Some(key)
  }

  lemma Fields(salt: seq<byte>, nonce: seq<byte>, ct: seq<byte>)
    requires |salt| == 16 && |nonce| == 24
    ensures var rest := salt + nonce + ct;
      rest[..16] == salt && rest[16..40] == nonce && rest[40..] == ct
  {
  }

  lemma BodySplits(mode: byte, rest: seq<byte>)
    ensures ([mode] + rest)[0] == mode && ([mode] + rest)[1..] == rest
  {
  }

  lemma SingleCardOpens(sha: Sha256, unseal: Unseal, key: seq<byte>, protection: Option<Protection>)
    requires |key| == KEY_SIZE && Protects(unseal, key, protection)
    ensures OpenSingleCard(sha, unseal, BuildBlob(sha, CARD_MAGIC, CardBody(key, protection))) == Ok(key)
  {
    hide BuildBlob, OpenBlob;
    var body := CardBody(key, protection);
    OpenIffBuilt(sha, BuildBlob(sha, CARD_MAGIC, body), CARD_MAGIC, body);
    match protection
    case None => BodySplits(0, key);
    case Some(p) =>
      var rest := p.salt + p.nonce + p.ct;
      BodySplits(1, rest);
      Fields(p.salt, p.nonce, p.ct);
  }

  /** And what it refuses, by what the card holds. */
  lemma SingleCardRefusals(sha: Sha256, unseal: Unseal, body: seq<byte>)
    ensures var r := OpenSingleCard(sha, unseal, BuildBlob(sha, CARD_MAGIC, body));
      && (body == [] ==> r == Err(NotSingleCard))
      && (|body| > 0 && body[0] > 1 ==> r == Err(UnknownMode))
      && (|body| > 0 && body[0] == 0 && |body| != 65 ==> r == Err(MalformedCard))
      && (|body| > 0 && body[0] == 1 && |body| < 42 ==> r == Err(MalformedCard))
      && (|body| >= 42 && body[0] == 1 ==>
            match unseal(body[1..17], body[17..41], body[41..])
            case None => r == Err(WrongPassphrase)
            case Some(plain) => |plain| != 64 ==> r == Err(WrongSize))
  {
    hide BuildBlob, OpenBlob;
    OpenIffBuilt(sha, BuildBlob(sha, CARD_MAGIC, body), CARD_MAGIC, body);
    if |body| >= 42 {
      var rest := body[1..];
      assert rest[..16] == body[1..17] && rest[16..40] == body[17..41] && rest[40..] == body[41..];
    }
  }

  /** The first card decides, and what is no card at all says so. */
  lemma OtherMagicRefused(sha: Sha256, unseal: Unseal, magic: seq<byte>, body: seq<byte>)
    requires |magic| == 4 && magic != [0x50, 0x33, 0x52, 0x31]
    ensures OpenSingleCard(sha, unseal, BuildBlob(sha, magic, body)) == Err(NotSingleCard)
  {
    hide BuildBlob, OpenBlob;
    OpenIffBuilt(sha, BuildBlob(sha, magic, body), magic, body);
  }

  lemma ScanCard(sha: Sha256, found: Found, digest: seq<byte>, key: seq<byte>, protection: Option<Protection>)
    ensures var payload := BuildBlob(sha, CARD_MAGIC, CardBody(key, protection));
      Scan(sha, ScanState(false, "", found), CardLines(Fingerprint(digest), protection.Some?, payload)) ==
        Ok(ScanState(false, "", found.(cards := found.cards + [payload])))
  {
    hide Scan, TrimSpace, Contains, Ignored, CardBegin, CardEnd, ProtectionLine, FingerprintLine, Fingerprint,
      OpenBlob, CardBody;
    var payload := BuildBlob(sha, CARD_MAGIC, CardBody(key, protection));
    BeginLines();
    EndLines();
    ProtectionLineIgnored(protection.Some?);
    FingerprintLineIgnored(digest);
    OpenIffBuilt(sha, payload, CARD_MAGIC, CardBody(key, protection));
    ScanBlock(sha, ScanState(false, "", found), CardBegin(), FingerprintLine(Fingerprint(digest)),
      ProtectionLine(protection.Some?), payload, CardEnd());
  }

  /** The cards found so far stay the first ones. */
  lemma {:induction false} ScanKeepsCards(sha: Sha256, st: ScanState, lines: seq<string>)
    ensures var r := Scan(sha, st, lines); r.Ok? ==> st.found.cards <= r.value.found.cards
    decreases |lines|
  {
    hide TrimSpace, Step;
    if lines != [] {
      StepKeepsCards(sha, st, TrimSpace(lines[0]));
      var next := Step(sha, st, TrimSpace(lines[0]));
      if next.Ok? {
        ScanKeepsCards(sha, next.value, lines[1..]);
      }
    }
  }

  lemma StepKeepsCards(sha: Sha256, st: ScanState, s: string)
    ensures var r := Step(sha, st, s); r.Ok? ==> st.found.cards <= r.value.found.cards
  {
    hide Contains, OpenBlob, Decode, IsDataLine;
  }

  /** A printed single card restores the key, whatever intact shares come before it, and
      whatever follows, as long as the text can be read to its end. */
  lemma FirstCardWins(sha: Sha256, unseal: Unseal, key: seq<byte>, protection: Option<Protection>, digest: seq<byte>,
      fillers: seq<seq<string>>, ps: seq<Printed>, after: seq<string>, raw: string, r: Result<seq<byte>, RestoreError>)
    requires |key| == KEY_SIZE && Protects(unseal, key, protection)
    requires |fillers| == |ps| + 1 && forall f :: f in fillers ==> MarkerFree(f)
    requires Shows(raw, Document(fillers, Blocks(sha, ps)) + CardLines(Fingerprint(digest), protection.Some?,
      BuildBlob(sha, CARD_MAGIC, CardBody(key, protection))) + after)
    requires Extracted(sha, raw).Ok? && Restores(sha, unseal, raw, r)
    ensures r == Ok(key)
  {
    hide Scan, MarkerFree, CardLines, Protects, BuildBlob, CardBody, Fingerprint, OpenSingleCard, Document, Blocks,
      Extracted, Restores, Shows, SharesOf;
    var payload := BuildBlob(sha, CARD_MAGIC, CardBody(key, protection));
    ScanDocument(sha, Found([], []), fillers, ps);
    NoneFoundYet(SharesOf(ps), payload);
    ScanCard(sha, Found([], SharesOf(ps)), digest, key, protection);
    SingleCardOpens(sha, unseal, key, protection);
    hide *;
    ExtractsAfter(sha, raw, Document(fillers, Blocks(sha, ps)), Found([], SharesOf(ps)),
      CardLines(Fingerprint(digest), protection.Some?, payload), Found([payload], SharesOf(ps)), after);
    FirstCardDecides(sha, unseal, raw, payload, r);
  }

  lemma NoneFoundYet(shares: seq<Share>, payload: seq<byte>)
    ensures Found([], []).(shares := [] + shares) == Found([], shares)
    ensures [] + [payload] == [payload] && [] + shares == shares
  {
  }

  /** What has been scanned so far is the beginning of what is extracted. */
  lemma ExtractsAfter(sha: Sha256, raw: string, before: seq<string>, found: Found, block: seq<string>, more: Found,
      after: seq<string>)
    requires Scan(sha, START, before) == Ok(ScanState(false, "", found))
    requires Scan(sha, ScanState(false, "", found), block) == Ok(ScanState(false, "", more))
    requires Shows(raw, before + block + after) && Extracted(sha, raw).Ok?
    ensures more.cards <= Extracted(sha, raw).value.cards
  {
    hide Scan, TrimSpace, Split;
    ScanTrimmed(sha, START, Split(raw), before + block + after);
    ScanConcat(sha, START, before, block);
    ScanConcat(sha, START, before + block, after);
    ScanKeepsCards(sha, ScanState(false, "", more), after);
  }

  lemma FirstCardDecides(sha: Sha256, unseal: Unseal, raw: string, payload: seq<byte>, r: Result<seq<byte>,
      RestoreError>)
    requires Extracted(sha, raw).Ok? && [payload] <= Extracted(sha, raw).value.cards && Restores(sha, unseal, raw, r)
    ensures r == OpenSingleCard(sha, unseal, payload)
  {
    hide Extracted, OpenSingleCard, Combinable, Secret, FirstFault;
  }

  /** In particular a card alone, with other text around it. */
  lemma SingleCardRestores(sha: Sha256, unseal: Unseal, key: seq<byte>, protection: Option<Protection>,
      digest: seq<byte>,
      before: seq<string>, after: seq<string>, raw: string, r: Result<seq<byte>, RestoreError>)
    requires |key| == KEY_SIZE && Protects(unseal, key, protection) && MarkerFree(before) && MarkerFree(after)
    requires Shows(raw, before + CardLines(Fingerprint(digest), protection.Some?,
      BuildBlob(sha, CARD_MAGIC, CardBody(key, protection))) + after)
    requires Restores(sha, unseal, raw, r)
    ensures r == Ok(key)
  {
    hide Scan, MarkerFree, CardLines, Protects, BuildBlob, CardBody, Fingerprint, Split, TrimSpace, OpenSingleCard;
    var payload := BuildBlob(sha, CARD_MAGIC, CardBody(key, protection));
    var block := CardLines(Fingerprint(digest), protection.Some?, payload);
    var found := Found([payload], []);
    SingleCardOpens(sha, unseal, key, protection);
    ScanTrimmed(sha, START, Split(raw), before + block + after);
    ScanFiller(sha, Found([], []), before);
    ScanCard(sha, Found([], []), digest, key, protection);
    assert [] + [payload] == [payload];
    ScanFiller(sha, found, after);
    ScanConcat(sha, START, before, block);
    ScanConcat(sha, START, before + block, after);
  }
}
