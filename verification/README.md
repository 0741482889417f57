# A verified model of p3sig's key, policy and secret handling

p3sig keeps signing keys off servers: keys are split onto printed cards or wrapped onto
USB drives, a key server unlocks bundles for signed requests, an agent installs SSH trust
files only from policies signed under a pinned root, a refresher vouches that a policy is
still current, and secrets are signed before they are sealed to machines. This project
models that logic in Dafny and proves what it promises, over every input and every run.

## How it is laid out

| file | what it holds |
|---|---|
| `Gf256.dfy`, `GfTables.dfy`, `Polynomials.dfy` | the field by its shift-and-xor product, the log/exp tables the init loop builds, root bound and interpolation |
| `Shamir.dfy` | split and combine, reconstruction, perfect secrecy, sensitivity |
| `Base64.dfy`, `Text.dfy`, `RecoveryCards.dfy`, `SplitRecovery.dfy` | card framing, printing, the line scanner, and recovery from pasted text |
| `Admission.dfy`, `AdmissionBounds.dfy`, `KeyServer.dfy` | the replay guard and rate window against a reference that forgets nothing, and the server's request path |
| `SignedPolicy.dfy`, `PolicyTheorems.dfy`, `SortedNames.dfy`, `Agent.dfy`, `Refresher.dfy` | policy verification, theorems about acceptance, the listing of principals, runs of the agent and of the refresher |
| `Wrap.dfy`, `UsbVault.dfy` | the two wrapped-blob formats and the crash-safe key file |
| `Secrets.dfy`, `Reseal.dfy` | sign-then-seal and re-sealing |

Code that changes things in place is a class or a method with loops (`Tables`, `Server`,
`Agent`, `Refresher`, `Drive`, the slice filter, split and combine, the scanners), proved
against functions or relations on values; the lemmas are about those. Runs are sequences
of such steps, with arbitrary server answers.

Cryptography is symbolic: each module takes its primitives as a record of functions and
names what it assumes of them in one predicate (`Sound`, `SoundSealing`, `SoundDevice`,
`Signs`). GF(256), base64, framing and all text handling are modelled for real; the field
is that of section 4.2 of FIPS 197, the encoding that of section 4 of RFC 4648.

Times are integers on one clock. In the key server they are nanoseconds and the clock
value is a parameter of each request, because the source reads it before it takes the lock.
`Admission.ReplayedIff` and `AdmissionBounds.LimitedIff` hold for any order of these values; other
theorems about runs of the key server say that the values reach admission in non-decreasing order.

## Where the code does less than its documentation says

Each of these is a lemma with a concrete input or an exact condition.

- `Admission.ReplayedIff`: for any order of clock values, a request is refused as a replay exactly when
  an earlier admission under its digest has not been outlived by a later clock value; `NoReplay` is what
  follows when none is outlived, and `LateArrivalIsAdmitted` is a run in which one is.
- `AdmissionBounds.LimitedIff`: for any order of clock values, a request that is no replay is refused for
  the rate exactly when 30 admissions of its app still count, that is, have not been filtered away by a
  later clock value. `RateBound` needs the order: `BurstPassesBound` is a run with 31 admissions in a minute.
- `Refresher.WindowEndsEarly`: seconds are truncated, so every tick that is not on a whole second leaves
  an instant inside its window at which agents past the device's expiry refuse. `AgentsStayLive` and
  `AcceptedIffFresh` give the exact condition for one instant, `NoBreakBetweenPosts` for agents to accept
  at every instant from one post to the next.
- `Wrap.PassphraseRoundTrip`: wrapping accepts parameters that unwrapping refuses; the round trip
  holds exactly within the bounds. `UsbVault.StoreOnBlankIff` carries this up to the drive, which is
  then left with a blob that nothing opens.
- `UsbVault.ReplacedIffHidden`: a present key file is replaced when the drive has no hard links and
  every stat of it fails; otherwise never.
- `Secrets.TrustHasNoFloor`: secrets are checked against a revocation list of any age, or none.

## Model

| member | source | states |
|---|---|---|
| Gf256.GfMulRaw | shamir.go:28-42 | the eight-round loop computes the field product |
| Gf256.MulAssoc | shamir.go:27-42 | the shift-and-xor product is associative, from its bilinearity over xor |
| Gf256.MulDistributes | shamir.go:27-42 | it distributes over xor on both sides |
| GfTables.EveryByteIsAPower | shamir.go:17-25 | every nonzero byte is a power of 3 below 255, so the log table covers them all |
| GfTables.PowInjective | shamir.go:17-25 | the first 255 powers of 3 differ: the two tables are mutually inverse |
| GfTables.Tables.Init | shamir.go:17-25 | the loop leaves tables in which exp holds the powers of 3 and log inverts it |
| GfTables.Tables.GfMul | shamir.go:44-49 | the table product is the shift-and-xor product, zero included |
| GfTables.Tables.GfDiv | shamir.go:51-56 | the table quotient times the divisor is the dividend |
| GfTables.NoZeroDivisors | shamir.go:44-49 | a product is zero only when a factor is |
| Polynomials.RootBound | shamir.go:64-71 | a polynomial with as many distinct roots as coefficients is zero everywhere |
| Polynomials.LagrangeIsTheInterpolant | shamir.go:109-125 | the Lagrange sum over enough points gives the value of the polynomial through them |
| Shamir.EvalPoly | shamir.go:65-71 | Horner's loop over the table product evaluates the polynomial |
| Shamir.ShamirSplit | shamir.go:74-91 | refuses exactly the invalid m-of-n; otherwise share i holds every byte's polynomial at i |
| Shamir.ShamirCombine | shamir.go:94-126 | Lagrange at 0 for combinable shares; otherwise the error of the first faulty share |
| Shamir.CombinableMeansNoFault | shamir.go:100-108 | combinable means non-zero distinct indices and equal lengths, which is what the loop checks |
| Shamir.Reconstruction | shamir.go:73-126 | any m or more distinct shares in any order combine to the secret, for every choice of random bytes |
| Shamir.PerfectSecrecy | shamir.go:82-89 | whatever m-1 shares show, every secret explains it by exactly one choice of random bytes |
| Shamir.CombinePermutation | shamir.go:94-126 | the result does not depend on the order of the shares |
| Shamir.CombineDetectsByte | shamir.go:109-125 | changing one byte of one share changes that byte of the result and no other |
| Shamir.CombineLinear | shamir.go:109-125 | combining sums of shares gives the sum of the secrets |
| Base64.DecodeEncode | backup.go:240-249 | decoding undoes encoding for all bytes |
| Base64.DecodesIff | backup.go:261-265 | text decodes exactly when, line breaks aside, it is whole groups of four with padding only at the end |
| Base64.TestVectors | backup.go:240-249 | the encoding of known texts, and both symbols of the alphabet |
| Text.TrimSpaceAround | backup.go:283-284 | trimming takes away exactly the white space around a line |
| Text.EndsTrimmed | backup.go:283-284 | indentation and the line ends of Windows make no difference, and nothing printable is trimmed |
| RecoveryCards.OpenIffBuilt | backup.go:198-215 | a blob opens to a magic and body exactly when it was framed from them |
| RecoveryCards.CutLines | backup.go:235-249 | the loop cuts the text into pieces of 48 characters |
| RecoveryCards.ChunkLengths | backup.go:235-249 | all pieces but the last have 48 characters, and the last no more |
| RecoveryCards.RenderShare | backup.go:235-250 | the printed share is the block of lines that the scanner theorems read |
| RecoveryCards.RenderCard | backup.go:217-232 | the printed card is the block of lines that the scanner theorems read |
| RecoveryCards.ShareFrame | backup.go:235-250 | the first four lines of a printed share and its last |
| RecoveryCards.ShareLabel | backup.go:235-250 | index, number of cards and threshold stand where the label says |
| RecoveryCards.FingerprintLabel | backup.go:370-373 | the fingerprint line holds the base64 of the public key's hash |
| RecoveryCards.CardFrame | backup.go:217-232 | the first four lines of a printed card and its last |
| RecoveryCards.ProtectionLabel | backup.go:217-232 | what the card says of its protection is what it has |
| RecoveryCards.DataLineChars | backup.go:294-295 | the characters that make a line data |
| RecoveryCards.ExtractBlocks | backup.go:254-302 | the loop over mutable state is the line-by-line scan, errors included |
| RecoveryCards.ScanBlock | backup.go:254-302 | a printed block adds exactly its payload to what was found, whatever came before |
| SplitRecovery.BackupSplit | backup.go:65-91 | one card per share, holding the share of that index, or the split error |
| SplitRecovery.PayloadBytes | backup.go:74-76 | the bytes of a printed share: magic, threshold, index, data, and four of the hash |
| SplitRecovery.Restore | backup.go:158-179 | a card wins; otherwise the first share's threshold says how many are combined; every error, that of the first faulty share included |
| SplitRecovery.ExtractPrinted | backup.go:254-302 | cards among marker-free lines parse back to their shares in order |
| SplitRecovery.PrintedRecovery | backup.go:65-91 | any quorum of cards, in any order among other text and white space, restores the key; what is split but not 64 bytes long is refused for its size |
| SplitRecovery.PastedCardsRestore | backup.go:65-91 | the same for the exact concatenation of the printed texts with other lines around them |
| SplitRecovery.TooFewCards | backup.go:164-168 | fewer cards than the first one asks for restore nothing, and say so |
| SplitRecovery.UnusableCards | backup.go:169-172 | the same card twice, or cards of different lengths, among as many as the first one asks for are refused by combining |
| SplitRecovery.FirstCardsDecide | backup.go:164-176 | cards beyond as many as the first one asks for change nothing, not even when they are unusable |
| SplitRecovery.DamageEndsScan | backup.go:254-302 | a block whose data is not base64, not framed, framed otherwise or a share too short ends extracting with that error, whatever scans before it and whatever follows |
| SplitRecovery.DamageReported | backup.go:254-302 | a damaged card is reported, however many intact ones come before it |
| SplitRecovery.EmptyBlockIgnored | backup.go:257-260 | a block without data adds nothing and is no error |
| SplitRecovery.NothingWithoutMarks | backup.go:298-300 | text without marks holds nothing, and restoring says so |
| SplitRecovery.SingleCardRestores | backup.go:305-344 | a single card, plain or under a passphrase, restores the key from printed text |
| SplitRecovery.FirstCardWins | backup.go:160-163 | the first printed card restores its key whatever intact shares come before it, and whatever follows, if the text can be read to its end |
| SplitRecovery.SingleCardRefusals | backup.go:305-344 | every way in which a card is refused, by the bytes it holds |
| SplitRecovery.OtherMagicRefused | backup.go:305-312 | what is framed as something else is no card |
| Admission.PrunedRefinesHistory | keyserver.go:523-549 | at every point of every run the pruned state gives the verdict of a server that remembers everything |
| Admission.ReplayedIff | keyserver.go:523-549 | in any run, in any order of clock values, a request is a replay exactly when an earlier admission under its digest has not been outlived |
| Admission.NoReplay | keyserver.go:523-549 | no signature digest is admitted twice in a run in which no guard entry is outlived between two uses |
| Admission.ProperOutlivesNone | keyserver.go:476-479 | a clock that does not go back outlives none of them, for requests within the skew |
| Admission.LateArrivalIsAdmitted | keyserver.go:476-479 | a run of in-skew requests in which one is outlived and admitted again |
| AdmissionBounds.RateBound | keyserver.go:536-547 | on a clock that does not go back, every half-open minute holds at most 30 admissions of an app |
| AdmissionBounds.LimitedIff | keyserver.go:536-547 | in any run, in any order of clock values, a request past the guard is admitted exactly when fewer than 30 admissions of its app still count |
| AdmissionBounds.BurstPassesBound | keyserver.go:476-479 | the bound needs the order: 32 in-skew requests, all admitted, 31 within one minute |
| AdmissionBounds.RefusedIffFull | keyserver.go:533-547 | a fresh signature is refused exactly when 30 were admitted in the minute up to it |
| AdmissionBounds.GuardBound | keyserver.go:526-530 | the guard never holds more than 90 entries per app |
| KeyServer.FilterInPlace | keyserver.go:536-541 | the filter that overwrites the array it reads equals a pure filter |
| KeyServer.FilterAndAdd | keyserver.go:536-546 | the whole rate window update on an aliased slice |
| KeyServer.Server.Purge | keyserver.go:526-530 | the loop drops exactly the entries whose expiry has passed |
| KeyServer.Server.Admit | keyserver.go:523-549 | verdict, guard and all rate windows are those of admission on values |
| KeyServer.Server.Unwrap | keyserver.go:471-510 | the checks in order with their refusals, admission, then the chip |
| KeyServer.AnsweredIff | keyserver.go:471-510 | at every point of every run a call is answered exactly when the app's key signed it, in skew, well formed, from an allowed address, its signature unused, under 30 admissions in the minute, and the chip opens its wrap; the answer is that wrap's key |
| KeyServer.RefusedIff | keyserver.go:471-510 | at every point of every run a call is refused with a reason exactly when that reason holds and none that is checked before does |
| KeyServer.CheckIP | keyserver.go:512-520 | true exactly when some allowed address is the caller's |
| KeyServer.SigMessageUnambiguous | keyserver.go:256-259 | the signed text determines app, time stamp, wrap hash and reply, even with separators in the app name |
| KeyServer.SigMessageText | keyserver.go:256-259 | the signed text of a request, written out |
| KeyServer.ServeIsRun | keyserver.go:471-510 | a run of requests admits exactly as the admission rule does on those that reach it |
| KeyServer.UnlockedOnce | keyserver.go:471-510 | every chip agreement of a run was signed by the app's key over that request; all signatures differ when no guard entry is outlived, as when the clock of the calls that reach admission does not go back |
| SignedPolicy.VerifyRootAndRevocations | account_policy.go:227-254 | pinned root, list version against the floor, stripped list, and the set of revoked fingerprints |
| SignedPolicy.LiveDelegations | account_policy.go:257-277 | the accounts of the live delegations, or the error for a bad blob or none |
| SignedPolicy.VerifyFreshness | account_policy.go:175-224 | the capped expiry of a statement by a delegated, unrevoked key for exactly this policy, or the reason it does not count |
| SignedPolicy.VerifyAccountPolicy | account_policy.go:116-172 | the account format's checks in order and the effective expiry |
| SignedPolicy.VerifySignedPolicy | policy.go:169-207 | the per-machine format's checks in order |
| SignedPolicy.VerifyPolicyAny | account_policy.go:104-112 | the format dispatch and the downgrade refusal |
| PolicyTheorems.MessageUnambiguous | policy.go:34-41 | a signed message determines its context and its payload |
| PolicyTheorems.SignedTexts | policy.go:34-36 | the signed bytes of each kind of blob: its own text, a line break, and the payload |
| PolicyTheorems.SignedOpens | policy.go:108-121 | what was signed in a context opens in it, under its key |
| PolicyTheorems.NoCrossUse | policy.go:141-160 | a signature opens one kind of blob, under one key, with one payload |
| PolicyTheorems.AccountsAreDelegated | account_policy.go:257-277 | an account is found exactly when the chain holds a live root delegation for it |
| PolicyTheorems.AcceptedIsAuthentic | account_policy.go:104-172 | an accepted policy is exactly what a live, unrevoked delegate signed, or its entry for this machine, unexpired and not below the floor |
| PolicyTheorems.AcceptedIffAuthentic | account_policy.go:104-172 | in both formats a response is accepted as a policy exactly when that policy is authentic, the chain opens, no floor is undercut and the expiry is the signed or vouched one |
| PolicyTheorems.RefusedIff | account_policy.go:104-172 | in both formats a response is refused with an error exactly when the reason it gives holds and none that is checked before does; a stale one carries exactly the policy it holds |
| PolicyTheorems.FreshnessNonInterference | account_policy.go:104-172 | in any response, changing the freshness fields changes nothing but an account policy's expiry, and with it staleness |
| PolicyTheorems.GrantedIffVouched | account_policy.go:175-224 | a statement extends the expiry exactly when an unrevoked key that the root lets vouch for the account signed it for this very policy, within skew, window and validity |
| PolicyTheorems.StatementIgnoredIff | account_policy.go:175-224 | a statement is ignored with an error exactly when that reason holds and none that is checked before does |
| PolicyTheorems.StatementIsForOnePolicy | account_policy.go:93-100 | one statement extends responses with the same policy bytes only, whatever chains, agents and times it is shown to |
| PolicyTheorems.FreshnessExpiryBounds | account_policy.go:156-223 | the expiry lies between the device-signed one and the longest a statement can give now |
| PolicyTheorems.FloorsMonotone | account_policy.go:104-172 | higher floors accept no more, and the same policy |
| PolicyTheorems.RefusalPersists | account_policy.go:104-172 | refusals for a floor, a stripped list or a downgrade hold in every higher state, at every time |
| PolicyTheorems.RevocationMonotone | account_policy.go:116-172 | more revoked fingerprints accept no more, with no later expiry |
| Agent.Agent.GroupByUser | main.go:346-356 | the loop gives every login user exactly its principals |
| SortedNames.AscendingUnique | main.go:361-365 | a set of names has one ascending listing |
| SortedNames.DictionaryOrder | main.go:361-365 | the order: the first character that differs decides, and a name comes before its extensions |
| SortedNames.Sort | main.go:361-365 | gathering and sorting a set of names gives that listing |
| Agent.SafeUserNames | main.go:676-686 | a name is safe exactly when it has 1 to 64 lower-case letters, digits, dashes and underscores, so no separator and no dot |
| Agent.Agent.WriteSSHFiles | main.go:339-374 | success exactly when the list compiles and every replacement is made, and then every file has exactly the text the config gives it; stopped before, just as many files as were replaced have it, principals first and the list last; none changes when the list does not compile |
| Agent.AppliedFiles | main.go:339-374 | what sshd reads after an applied pull: the policy's CA keys, its compiled list, and for each safe user with a grant exactly the principals granted, in order |
| Agent.UnsignedFiles | main.go:305-334 | an unsigned policy is applied only with no root, no earlier version and no demand for signatures; what sshd then reads, and that nothing is saved |
| Agent.Agent.PullWith | main.go:262-334 | one pull is a step of the relation on state and files, in every branch |
| Agent.AppliedIff | main.go:262-313 | a pull applies a policy exactly when no other root is saved, an authentic policy not below the saved floors is served, its list compiles, and every file and the state can be written |
| Agent.SavedState | policy.go:210-222 | what an applied pull saves, field by field; every other outcome leaves the state as it was |
| Agent.StepMovesUp | policy.go:210-222 | no pull lowers a floor, leaves the account format or changes a saved root |
| Agent.RollbackSafety | main.go:262-334 | nor does any run of pulls against any server |
| Agent.AppliedNeverGoesBack | main.go:262-334 | over runs, what is applied later has no lower version and no older revocation list, none is stripped after a positive version, and nothing per-machine follows the account format |
| Agent.AppliedRootStays | main.go:262-334 | over runs, the root of an applied pull is the root of every later one; any other is refused, and nothing unsigned is asked for |
| Agent.NeverUnsignedAgain | main.go:262-334 | once a root is saved or a version accepted, a pull without a root is refused and changes neither files nor state |
| Agent.StepWritesSourced | main.go:277-304 | under a root, a pull gives a file only what its own served policy gives it, authentic at its time and not below its state's floors; a failed verification changes none |
| Agent.FilesAreAuthentic | main.go:262-334 | over whole runs, with writing stopping anywhere, each file is as at the start or from the policy of one of the run's pulls, authentic at that pull by its time, its list and its saved floors |
| Agent.RefusedForGood | main.go:262-334 | in any run a response refused by the state stays refused |
| Refresher.Refresher.Refresh | account_policy_cli.go:194-279 | the tick: checks, window, statement, and a floor that moves only after the post |
| Refresher.VouchesIff | account_policy_cli.go:194-266 | a tick signs a statement exactly for an authentic, current policy of its account and group, with its own key not revoked |
| Refresher.TickRefusedIff | account_policy_cli.go:194-253 | a tick signs nothing and says why exactly when that reason holds and none that is checked before does |
| Refresher.StatementShape | account_policy_cli.go:255-266 | issue time, version and validity of every statement, within seven days and a valid account window |
| Refresher.StatementIsOfPolicy | account_policy_cli.go:255-266 | a statement is for this account and group and carries hash and version of the policy served |
| Refresher.StatementExtendsOnlyItsPolicy | account_policy.go:206-212 | what a tick signs extends no response with other policy bytes, at any agent and at any time |
| Refresher.PostsExpireExactly | account_policy_cli.go:255-266 | over runs each post expires exactly the account's hours after its tick, or the flag's time when that is shorter or the account has no valid window, or 36 hours when there is neither |
| Refresher.FloorCoversPosts | account_policy_cli.go:268-279 | the floor is never below anything posted |
| Refresher.FloorIsLastPost | account_policy_cli.go:268-279 | version and issue time of the floor are those of the last post, its list version that of some post, or all as at the start |
| Refresher.PostsAreOrdered | account_policy_cli.go:194-279 | over runs, issue times increase strictly, versions do not fall, validities stay within their limits |
| Refresher.PostedListsAreOrdered | account_policy_cli.go:194-279 | over runs, posted revocation lists open and their versions do not fall, none is missing after a positive version, and the floor covers them |
| Refresher.AgentVerdict | account_policy.go:156-223 | the verdict of an agent in order on a posted statement, before and after its expiry |
| Refresher.AgentsStayLive | account_policy_cli.go:194-279 | at every instant of a run from a post on, such an agent accepts it exactly while the second comes before the device's expiry or the second in which the window ends; in the window with the later of the two as expiry |
| Refresher.NoBreakBetweenPosts | account_policy_cli.go:194-279 | from one post of a run to the next, agents in order accept at every instant exactly when the last instant comes in a second before the window's end or the device's expiry; a gap a second below the window always does |
| Refresher.AcceptedIffFresh | account_policy_cli.go:255-266 | once the device's expiry has passed, acceptance is exactly that the statement is not from the future and the second comes before its expiry |
| Refresher.WindowEndsEarly | account_policy_cli.go:255-266 | at the last instant of a window of whole seconds, an agent past the device's expiry accepts exactly when the tick was on a whole second |
| Wrap.OpenEcdh | wrap.go:180-212 | unwrapping on the chip's own buffer: the result, and a buffer that is all zero afterwards whenever the chip was asked |
| Wrap.BuildEcdh | wrap.go:154-176 | what the appends into the header's buffer leave is a blob from which the holder of the chip recovers the secret |
| Wrap.EcdhRoundTrip | wrap.go:154-212 | the chip recovers what was wrapped to it |
| Wrap.EcdhReserialises | wrap.go:180-212 | a blob that unwraps is byte for byte its fields and the sealing of its secret |
| Wrap.BuildArgon2 | wrap.go:236-253 | what the appends into the header's buffer leave is a blob that opens with any passphrase for the key, exactly within the parameter bounds |
| Wrap.SealPassphrase | wrap.go:217-232 | the chosen or default parameters, and a blob that the passphrase opens exactly within the bounds |
| Wrap.PassphraseRoundTrip | wrap.go:217-283 | unwrapping undoes wrapping exactly when the parameters are within bounds; otherwise malformed |
| Wrap.WrapAcceptsTooManyPasses | wrap.go:277-279 | 65 passes are wrapped and then refused |
| Wrap.PassphraseReserialises | wrap.go:256-283 | a blob that unwraps re-serialises to itself |
| Wrap.SchemesDisjoint | wrap.go:122-135 | no blob is accepted by both schemes, and the scheme byte tells which |
| Wrap.HeaderLayout | wrap.go:154-253 | where each field of the two headers stands, numbers big-endian |
| Wrap.ParamsAre | wrap.go:217-279 | the default parameters, and the bounds that unwrapping puts on stored ones |
| Wrap.SchemeIs | wrap.go:122-135 | what the first two bytes of a blob decide |
| Wrap.EcdhErrors | wrap.go:180-212 | every error of unwrapping for a chip, by the bytes of the blob and the chip's answer |
| Wrap.PassphraseErrors | wrap.go:256-283 | every error of unwrapping with a passphrase |
| UsbVault.Drive.State | usbvault.go:51-69 | holds a key, blank, or used with the offending name |
| UsbVault.Drive.WriteAndSync | usbvault.go:88-93 | success means the whole blob is on the medium |
| UsbVault.Drive.Publish | usbvault.go:94-103 | the key file becomes the finished temporary file or stays as it was |
| UsbVault.Drive.WriteKey | usbvault.go:73-111 | under every combination of faults and crashes a present key is kept unless hidden, an absent one stays absent or becomes the whole blob; success exactly when no fault hits what it needs |
| UsbVault.ReadKeyIs | usbvault.go:114-127 | what reading a key back says, in every case |
| UsbVault.Drive.Store | usbvault.go:132-155 | used drives untouched and named, own key resumed, success only after a read-back equal to the key, and otherwise the error of the step that failed |
| UsbVault.KeyNeverChanges | usbvault.go:71-111 | over runs with crashes and power losses a present key file never changes, nor does the rest of the drive |
| UsbVault.AbsentOrComplete | usbvault.go:71-111 | at every moment the key file is absent or one complete wrapped blob |
| UsbVault.RerunSucceeds | usbvault.go:129-155 | after any such run, a fault-free attempt with the same key succeeds and reads back |
| UsbVault.StoreOnBlankIff | usbvault.go:132-155 | a fault-free store succeeds exactly within the parameter bounds, and what it leaves is final |
| UsbVault.StoreSucceedsIff | usbvault.go:132-155 | on a drive without a key, under every combination of faults, storing succeeds exactly when nothing else is there, no fault hits what listing, writing and reading need, and the parameters are within bounds |
| UsbVault.OtherKeyRefused | usbvault.go:132-155 | in every run from a drive with a key, an attempt succeeds only for that key, and a calm one says exactly whether it is there, or why not |
| UsbVault.ReplacedIffHidden | usbvault.go:79-101 | the exact condition under which a present key is replaced |
| Secrets.LiveSigner | secret.go:93-116 | revoked signers, bad blobs and dead delegations refused; otherwise the live accounts |
| Secrets.TrustHasNoFloor | secret.go:71-90 | trust equals the policy root check at any floor, errors included, and also takes old or stripped lists |
| Secrets.AcceptedIffCarried | secret.go:138-194 | a text is accepted with a value exactly when a live, unrevoked delegate signed that value for this secret, name and machine; unsigned text only when signatures are not required, and flagged |
| Secrets.ValueRefusedIff | secret.go:138-194 | a text is refused with an error exactly when the reason it gives holds and none that is checked before does |
| Secrets.NotTransferable | secret.go:166-176 | one opened text is accepted for one secret, name and machine only |
| Secrets.RevokingAcceptsNoMore | secret.go:93-96 | more revoked fingerprints make nothing acceptable |
| Reseal.RequireLiveDelegation | secret.go:371-379 | true exactly when the status lists the device live and not revoked |
| Reseal.OpenAny | secret.go:308-320 | a copy whose name and value both open, or none exists |
| Reseal.ResealOne | secret.go:329-355 | a plain copy for an own key, a signed envelope for a machine, or an error and why |
| Reseal.ResealWork | secret.go:307-356 | all recipients of one secret get copies of one opened value, with the counts, or none when no own copy opens; a nested envelope is refused |
| Reseal.SecretReseal | secret.go:278-367 | one upload holding exactly the right copies and counts, nothing uploaded on any error, why each error is returned, and success when nothing is wrong |
| Reseal.CopyCarries | secret.go:341-346 | what a machine's new copy carries, field by field, and that the device signed it |
| Reseal.OwnCopyOpens | secret.go:331-335 | a vault's own new copy opens to the same value and name as the copy it was made from |
| Reseal.MachineAccepts | secret.go:120-194 | a machine accepts its re-sealed copy under any trust that delegates the device |
| Reseal.ResealRoundTrip | secret.go:278-367 | after a reseal every listed machine reads the name and value of an opened copy, signatures required |

## Left out

- Real Ed25519, ECDSA, X25519, AES-GCM, Argon2id, SHA-256, HKDF and secretbox: symbolic functions with the assumptions stated in each module.
- HTTP transport and its retry, terminals, wizards, flags, keystores, dongles, ssh-agent, systemd and sshd: plumbing around the modelled functions.
- JSON text: payloads are values, decoding is a partial function; what JSON does to text that is not UTF-8 is the function `scrub`.
- KRL compilation: a function that may fail.
- Org secrets, org rotation, vault registration, release checks and statistics: they repeat the patterns modelled here.
- Concurrency in the key server: requests are taken in the order in which they get the lock.
- WriteSSHFiles: the order of the principals files among themselves is a choice, as in the source; the temporary `.krl.spec` and `.tmp` files and file modes are not modelled; a file replacement is atomic.
- PullWith: status reports to the server are left out, and a rejected policy leaves out its text of reasons.
- FilesAreAuthentic: a principals file of a user who lost every grant stays as it was, as in the source, so the claim is about what files hold and not about removal.
- RevocationMonotone: asks for a clock at or after 1970, because an expiry of 0 reads as stale.
- RootAndRevocations: equal versions with different content are accepted, and lists need not be cumulative, as in the source.
- BuildEcdh: the ephemeral key and the nonce are parameters; the wiping of buffers that no caller sees is done but cannot be stated.
- PassphraseRoundTrip: salt and nonce are parameters of the stated lengths, and Argon2id's own demand for at least one pass and one lane is the precondition.
- WriteKey: directory operations are atomic and take effect in order; only file contents may be lost before a sync. Entries inside P3SIG are files.
- SecretReseal: the sealer's randomness is a counter, and signing is a function of what is signed.
- MachineAccepts: a value that is not UTF-8 arrives with its invalid bytes replaced, as JSON does; names and identifiers come from JSON and are valid already.
