/** The agent that pulls policies and writes sshd's trust files: one pull with its
    possible failures, and what holds over every run of pulls against any server. */
module Agent {
  import opened Gf256
  import opened Base64
  import opened Prelude
  import opened SignedPolicy
  import opened PolicyTheorems
  import SortedNames
  import Text

  // ----- sshd's files

  datatype Path = RevokedKeys | TrustedCAKeys | Principals(user: string)

  type Files = map<Path, string>

  function At(files: Files, path: Path): Option<string> {
    if path in files then Some(files[path]) else None
  }

  /** safeUser */
  predicate SafeUser(u: string) {
    && 0 < |u| <= 64
    && forall ch :: ch in u ==> ch == '_' || ch == '-' || 'a' <= ch <= 'z' || '0' <= ch <= '9'
  }

  /** What is written: CA keys, grants and the compiled revocation list. */
  datatype Config = Config(caKeys: string, grants: seq<Grant>, krl: string)

  function PrincipalsFor(grants: seq<Grant>, user: string): set<string> {
    set g | g in grants && g.loginUser == user :: g.principal
  }

  /** The content a config gives a file; None for a file it leaves alone. */
  ghost function Target(config: Config, path: Path): Option<string> {
    match path
    case RevokedKeys => Some(config.krl)
    case TrustedCAKeys => Some(config.caKeys + "\n")
    case Principals(user) =>
      var names := PrincipalsFor(config.grants, user);
      if SafeUser(user) && names != {} then Some(Text.Join(SortedNames.Listing(names)) + "\n") else None
  }

  /** Compiles a revocation list, or fails. */
  type Compiler = string -> Option<string>

  /** The safe users with a grant: those whose principals files are replaced. */
  function WrittenUsers(grants: seq<Grant>): set<string> {
    set g | g in grants && SafeUser(g.loginUser) :: g.loginUser
  }

  /** How many files are replaced: the principals files, the CA keys and the list. */
  function Replacements(grants: seq<Grant>): nat {
    |WrittenUsers(grants)| + 2
  }

  /** Writing stopped after `fuel` replacements, too few: of the principals files some, but
      as many as that, are as the config has them; the CA keys only once all of those are;
      the revocation list, which comes last, is as before, and so is everything else. */
  ghost predicate PartlyWritten(before: Files, after: Files, config: Config, fuel: nat) {
    var users := WrittenUsers(config.grants);
    && fuel <= |users| + 1
    && exists done: set<string> ::
      && done <= users && |done| == (if fuel < |users| then fuel else |users|)
      && forall path :: (At(after, path) ==
        if (path.Principals? && path.user in done) || (path.TrustedCAKeys? && fuel > |users|) then Target(config, path)
        else At(before, path))
  }

  /** The principals files are as the config has them but for those of `users`, and `n`
      have been replaced; every other file is as before. */
  ghost predicate Underway(before: Files, after: Files, config: Config, users: set<string>, n: nat) {
    var done := WrittenUsers(config.grants) - users;
    && |done| == n
    && forall path :: (At(after, path) ==
      if path.Principals? && path.user in done then Target(config, path) else At(before, path))
  }

  lemma NoneDone(files: Files, config: Config, users: set<string>)
    requires WrittenUsers(config.grants) <= users
    ensures Underway(files, files, config, users, 0)
  {
    assert WrittenUsers(config.grants) - users == {};
  }

  lemma OneSkipped(before: Files, after: Files, config: Config, users: set<string>, n: nat, user: string)
    requires Underway(before, after, config, users, n) && user !in WrittenUsers(config.grants)
    ensures Underway(before, after, config, users - {user}, n)
  {
    hide At, Target, WrittenUsers;
    var due := WrittenUsers(config.grants);
    assert due - (users - {user}) == due - users;
  }

  lemma OneMoreDone(before: Files, after: Files, config: Config, users: set<string>, n: nat, user: string, text: string)
    requires Underway(before, after, config, users, n)
    requires user in WrittenUsers(config.grants) && user in users
    ensures n < |WrittenUsers(config.grants)|
    ensures Target(config, Principals(user)) == Some(text) ==>
      Underway(before, after[Principals(user) := text], config, users - {user}, n + 1)
  {
    hide Target, WrittenUsers;
    var due := WrittenUsers(config.grants);
    assert due - (users - {user}) == due - users + {user};
    Fewer(due - users, due);
  }

  lemma StoppedThere(before: Files, after: Files, config: Config, users: set<string>, n: nat)
    requires Underway(before, after, config, users, n) && (users == {} || n < |WrittenUsers(config.grants)|)
    ensures PartlyWritten(before, after, config, n)
    ensures users == {} ==> n == |WrittenUsers(config.grants)|
  {
    hide At, Target, WrittenUsers;
    var due := WrittenUsers(config.grants);
    assert users == {} ==> due - users == due;
  }

  lemma StoppedAfterCA(before: Files, after: Files, config: Config, n: nat)
    requires Underway(before, after, config, {}, n)
    ensures PartlyWritten(before, after[TrustedCAKeys := config.caKeys + "\n"], config, n + 1)
  {
    hide WrittenUsers;
    var due, last := WrittenUsers(config.grants), after[TrustedCAKeys := config.caKeys + "\n"];
    assert due - {} == due;
    assert forall user :: At(last, Principals(user)) == At(after, Principals(user));
  }

  lemma AllWritten(before: Files, after: Files, config: Config, n: nat)
    requires Underway(before, after, config, {}, n)
    ensures Written(before, after[TrustedCAKeys := config.caKeys + "\n"][RevokedKeys := config.krl], config)
  {
    var last := after[TrustedCAKeys := config.caKeys + "\n"][RevokedKeys := config.krl];
    forall path
      ensures At(last, path) == if Target(config, path).Some? then Target(config, path) else At(before, path)
    {
      AllWrittenAt(before, after, config, n, path);
    }
  }

  lemma AllWrittenAt(before: Files, after: Files, config: Config, n: nat, path: Path)
    requires Underway(before, after, config, {}, n)
    ensures At(after[TrustedCAKeys := config.caKeys + "\n"][RevokedKeys := config.krl], path) ==
      if Target(config, path).Some? then Target(config, path) else At(before, path)
  {
    hide WrittenUsers, PrincipalsFor, SafeUser;
    if path.Principals? {
      WrittenUsersHaveTargets(config, path.user);
    }
  }

  lemma DueUsers(byUser: map<string, set<string>>, config: Config)
    requires forall u :: u in byUser <==> PrincipalsFor(config.grants, u) != {}
    requires forall u :: u in byUser ==> byUser[u] == PrincipalsFor(config.grants, u)
    ensures forall u :: u in WrittenUsers(config.grants) <==> u in byUser && SafeUser(u)
    ensures forall u :: u in WrittenUsers(config.grants) ==>
      Target(config, Principals(u)) == Some(Text.Join(SortedNames.Listing(byUser[u])) + "\n")
  {
    hide PrincipalsFor, WrittenUsers, SafeUser;
    forall u
      ensures u in WrittenUsers(config.grants) <==> u in byUser && SafeUser(u)
      ensures u in WrittenUsers(config.grants) ==>
        Target(config, Principals(u)) == Some(Text.Join(SortedNames.Listing(byUser[u])) + "\n")
    {
      WrittenUsersHaveTargets(config, u);
    }
  }

  lemma WrittenUsersHaveTargets(config: Config, user: string)
    ensures user in WrittenUsers(config.grants) <==> Target(config, Principals(user)).Some?
  {
    var names := PrincipalsFor(config.grants, user);
    if g :| g in config.grants && g.loginUser == user {
      assert g.principal in names;
    }
  }

  /** Then every file is as before or as the config has it. */
  lemma PartlyIsBeforeOrTarget(before: Files, after: Files, config: Config, fuel: nat, path: Path)
    requires PartlyWritten(before, after, config, fuel)
    ensures At(after, path) == At(before, path)
      || (Target(config, path).Some? && At(after, path) == Target(config, path))
  {
    hide WrittenUsers, At;
    if path.Principals? {
      WrittenUsersHaveTargets(config, path.user);
    }
  }

  ghost predicate Written(before: Files, after: Files, config: Config) {
    forall path :: At(after, path) == if Target(config, path).Some? then Target(config, path) else At(before, path)
  }

  // ----- one pull

  datatype Unsigned = Unsigned(caKeys: string, grants: seq<Grant>, krlSpec: string)

  /** One pull: the flags, what the server answers, the time, after how many file
      replacements writing fails or the machine stops, and whether saving succeeds. */
  datatype Pull = Pull(
    rootArg: string, requireSigned: bool, signed: Option<Response>, unsigned: Option<Unsigned>,
    now: int, fuel: nat, saves: bool)

  datatype Outcome =
    | RootDiffers | Rejected(e: PolicyError) | SignedRequired | WriteFailed | SaveFailed
    | Applied(p: Policy) | UnsignedFailed | UnsignedApplied

  function EffectiveRoot(st: State, pull: Pull): string {
    if pull.rootArg == "" then st.rootFP else pull.rootArg
  }

  /** nextState */
  function NextState(c: Crypto, sp: Response, rootFP: string, p: Policy, prev: State): State {
    State(rootFP, p.version,
      match sp.revocations
      case None => prev.revocationsVersion
      case Some(b) =>
        (match Bind(Decode(b.payload), c.revocationsWhole)
         case None => prev.revocationsVersion
         case Some(r) => r.version),
      p.krlExpires,
      if IsAccountFormat(sp) then FORMAT_ACCOUNT else prev.format)
  }

  function ConfigOf(p: Policy, krl: string): Config {
    Config(Text.Join(p.caKeys), p.grants, krl)
  }

  /** State and files of one agent. */
  datatype Snapshot = Snapshot(st: State, files: Files)

  /** What one pull may do to an agent. */
  ghost predicate Step(c: Crypto, compile: Compiler, machine: string, s: Snapshot, pull: Pull, o: Outcome,
      s': Snapshot) {
    var rootFP := EffectiveRoot(s.st, pull);
    if pull.rootArg != "" && s.st.rootFP != "" && s.st.rootFP != pull.rootArg then o == RootDiffers && s' == s
    else if rootFP != "" then
      if pull.signed.Some? && (pull.signed.value.policy.payload != "" || pull.signed.value.accountPolicy.Some?) then
        match VerifyAny(c, pull.signed.value, rootFP, machine, s.st, pull.now)
        case Err(e) => o == Rejected(e) && s' == s
        case Ok(p) =>
          match compile(p.krlSpec + "\n")
          case None => o == WriteFailed && s' == s
          case Some(krl) =>
            var config := ConfigOf(p, krl);
            if pull.fuel < Replacements(p.grants) then
              o == WriteFailed && s'.st == s.st && PartlyWritten(s.files, s'.files, config, pull.fuel)
            else if !pull.saves then o == SaveFailed && s'.st == s.st && Written(s.files, s'.files, config)
            else
              && o == Applied(p) && s'.st == NextState(c, pull.signed.value, rootFP, p, s.st)
              && Written(s.files, s'.files, config)
      else o == SignedRequired && s' == s
    else if pull.requireSigned || s.st.version > 0 then o == SignedRequired && s' == s
    else
      && s'.st == s.st
      && match pull.unsigned
         case None => o == UnsignedFailed && s' == s
         case Some(u) =>
           match compile(u.krlSpec + "\n")
           case None => o == WriteFailed && s' == s
           case Some(krl) =>
             var config := Config(u.caKeys, u.grants, krl);
             if pull.fuel < Replacements(u.grants) then
               o == WriteFailed && PartlyWritten(s.files, s'.files, config, pull.fuel)
             else o == UnsignedApplied && Written(s.files, s'.files, config)
  }

  class Agent {
    const c: Crypto
    const compile: Compiler
    const machine: string
    var st: State
    var files: Files

    constructor (c: Crypto, compile: Compiler, machine: string, st: State, files: Files)
      ensures this.c == c && this.compile == compile && this.machine == machine && this.st == st && this.files == files
    {
      this.c, this.compile, this.machine := c, compile, machine;
      this.st, this.files := st, files;
    }

    /** The loop that groups the grants by login user. */
    static method GroupByUser(grants: seq<Grant>) returns (byUser: map<string, set<string>>)
      ensures forall u :: u in byUser <==> PrincipalsFor(grants, u) != {}
      ensures forall u :: u in byUser ==> byUser[u] == PrincipalsFor(grants, u)
    {
      byUser := map[];
      for i := 0 to |grants|
        invariant forall u :: u in byUser <==> PrincipalsFor(grants[..i], u) != {}
        invariant forall u :: u in byUser ==> byUser[u] == PrincipalsFor(grants[..i], u)
      {
        var g := grants[i];
        PrincipalsNext(grants[..i], g);
        assert grants[..i + 1] == grants[..i] + [g];
        if g.loginUser !in byUser {
          byUser := byUser[g.loginUser := {}];
        }
        byUser := byUser[g.loginUser := byUser[g.loginUser] + {g.principal}];
      }
      assert grants[..|grants|] == grants;
    }

    /** The loop that replaces the principals files; false when `fuel` runs out before. */
    method WritePrincipals(byUser: map<string, set<string>>, fuel: nat, ghost config: Config)
      returns (ok: bool, left: nat, ghost users: set<string>)
      requires forall u :: u in byUser <==> PrincipalsFor(config.grants, u) != {}
      requires forall u :: u in byUser ==> byUser[u] == PrincipalsFor(config.grants, u)
      modifies this`files
      ensures left <= fuel && Underway(old(files), files, config, users, fuel - left)
      ensures if ok then users == {} else left == 0 && fuel < |WrittenUsers(config.grants)|
    {
      hide *;
      DueUsers(byUser, config);
      var rest := byUser.Keys;
      left := fuel;
      NoneDone(files, config, rest);
      while rest != {}
        invariant rest <= byUser.Keys && left <= fuel && Underway(old(files), files, config, rest, fuel - left)
        decreases rest
      {
        var user :| user in rest;
        if SafeUser(user) {
          var names := SortedNames.Sort(byUser[user]);
          var text := Text.Join(names) + "\n";
          OneMoreDone(old(files), files, config, rest, fuel - left, user, text);
          if left == 0 {
            return false, 0, rest;
          }
          files := files[Principals(user) := text];
          left := left - 1;
        } else {
          OneSkipped(old(files), files, config, rest, fuel - left, user);
        }
        rest := rest - {user};
      }
      ok, users := true, {};
    }

    /** writeSSHFiles: the list compiles first; then each file is replaced in turn,
        until `fuel` replacements have been made. */
    method WriteSSHFiles(caKeys: string, grants: seq<Grant>, krlSpec: string, fuel: nat) returns (ok: bool)
      modifies this`files
      ensures compile(krlSpec + "\n").None? ==> !ok && files == old(files)
      ensures compile(krlSpec + "\n").Some? ==>
        var config := Config(caKeys, grants, compile(krlSpec + "\n").value);
        && (ok <==> fuel >= Replacements(grants))
        && if ok then Written(old(files), files, config) else PartlyWritten(old(files), files, config, fuel)
    {
      hide Written, PartlyWritten, Underway, PrincipalsFor, WrittenUsers;
      var krl := compile(krlSpec + "\n");
      if krl.None? {
        return false;
      }
      ghost var config := Config(caKeys, grants, krl.value);
      var byUser := GroupByUser(grants);
      var left;
      ghost var users;
      ok, left, users := WritePrincipals(byUser, fuel, config);
      StoppedThere(old(files), files, config, users, fuel - left);
      if !ok {
        return;
      }
      if left == 0 {
        return false;
      }
      StoppedAfterCA(old(files), files, config, fuel - left);
      AllWritten(old(files), files, config, fuel - left);
      files := files[TrustedCAKeys := caKeys + "\n"];
      if left == 1 {
        return false;
      }
      files := files[RevokedKeys := krl.value];
    }

    /** agentPullWith */
    method PullWith(pull: Pull) returns (o: Outcome)
      modifies this
      ensures Step(c, compile, machine, old(Snapshot(st, files)), pull, o, Snapshot(st, files))
    {
      hide Written, PartlyWritten, VerifyAny, NextState;
      var rootFP := pull.rootArg;
      if rootFP == "" {
        rootFP := st.rootFP;
      } else if st.rootFP != "" && st.rootFP != rootFP {
        return RootDiffers;
      }
      var mandatory := pull.requireSigned || st.version > 0 || rootFP != "";
      if rootFP != "" {
        if pull.signed.Some? && (pull.signed.value.policy.payload != "" || pull.signed.value.accountPolicy.Some?) {
          var sp := pull.signed.value;
          var verdict := VerifyPolicyAny(c, sp, rootFP, machine, st, pull.now);
          if verdict.Err? {
            return Rejected(verdict.error);
          }
          var p := verdict.value;
          var ok := WriteSSHFiles(Text.Join(p.caKeys), p.grants, p.krlSpec, pull.fuel);
          if !ok {
            return WriteFailed;
          }
          if !pull.saves {
            return SaveFailed;
          }
          st := NextState(c, sp, rootFP, p, st);
          return Applied(p);
        }
        if mandatory {
          return SignedRequired;
        }
      } else if mandatory {
        return SignedRequired;
      }
      if pull.unsigned.None? {
        return UnsignedFailed;
      }
      var u := pull.unsigned.value;
      var ok := WriteSSHFiles(u.caKeys, u.grants, u.krlSpec, pull.fuel);
      if !ok {
        return WriteFailed;
      }
      o := UnsignedApplied;
    }
  }

  lemma Fewer(part: set<string>, whole: set<string>)
    requires part <= whole && part != whole
    ensures |part| < |whole|
  {
    var rest := whole - part;
    assert whole == part + rest && rest != {};
  }

  lemma PrincipalsNext(grants: seq<Grant>, g: Grant)
    ensures forall u :: (PrincipalsFor(grants + [g], u) ==
      PrincipalsFor(grants, u) + if u == g.loginUser then {g.principal} else {})
  {
  }

  // ----- one step

  /** The order in which an agent's state can only move up. */
  predicate MovesUp(st: State, st': State) {
    && (st.rootFP != "" ==> st'.rootFP == st.rootFP)
    && FloorsRaised(st, st')
  }

  lemma NextStateMovesUp(c: Crypto, sp: Response, rootFP: string, machine: string, st: State, now: int)
    requires Sound(c) && VerifyAny(c, sp, rootFP, machine, st, now).Ok?
    requires st.rootFP == "" || st.rootFP == rootFP
    ensures MovesUp(st, NextState(c, sp, rootFP, VerifyAny(c, sp, rootFP, machine, st, now).value, st))
  {
    hide SignerOf, Opened, Decode, FreshnessExpiry, CAKeysParse;
    AcceptedIsAuthentic(c, sp, rootFP, machine, st, now);
    if sp.revocations.Some? {
      RevocationFloorRises(c, sp, rootFP, st.revocationsVersion);
    }
  }

  /** The version that nextState reads again is the one that was checked. */
  lemma RevocationFloorRises(c: Crypto, sp: Response, rootFP: string, floor: int)
    requires Sound(c) && RootAndRevocations(c, sp, rootFP, floor).Ok? && sp.revocations.Some?
    ensures Bind(Decode(sp.revocations.value.payload), c.revocationsWhole).Some? ==>
      Bind(Decode(sp.revocations.value.payload), c.revocationsWhole).value.version >= floor
  {
    hide Decode, Message;
  }

  lemma StepMovesUp(c: Crypto, compile: Compiler, machine: string, s: Snapshot, pull: Pull, o: Outcome, s': Snapshot)
    requires Sound(c) && Step(c, compile, machine, s, pull, o, s')
    ensures MovesUp(s.st, s'.st)
  {
    hide VerifyAny, NextState, Written, PartlyWritten;
    if o.Applied? {
      NextStateMovesUp(c, pull.signed.value, EffectiveRoot(s.st, pull), machine, s.st, pull.now);
    }
  }

  // ----- runs

  /** A run: snapshots joined by pulls. */
  ghost predicate Run(c: Crypto, compile: Compiler, machine: string, pulls: seq<Pull>, outcomes: seq<Outcome>,
      trace: seq<Snapshot>) {
    && |trace| == |pulls| + 1 && |outcomes| == |pulls|
    && forall k :: 0 <= k < |pulls| ==> Step(c, compile, machine, trace[k], pulls[k], outcomes[k], trace[k + 1])
  }

  /** In every run: the saved root stays, both version floors never fall, and the
      account format is never left. */
  lemma {:induction false} RollbackSafety(c: Crypto, compile: Compiler, machine: string, pulls: seq<Pull>,
      outcomes: seq<Outcome>,
      trace: seq<Snapshot>, i: nat, j: nat)
    requires Sound(c) && Run(c, compile, machine, pulls, outcomes, trace) && i <= j < |trace|
    ensures MovesUp(trace[i].st, trace[j].st)
    decreases j - i
  {
    hide Step;
    if i < j {
      RollbackSafety(c, compile, machine, pulls, outcomes, trace, i, j - 1);
      StepMovesUp(c, compile, machine, trace[j - 1], pulls[j - 1], outcomes[j - 1], trace[j]);
    }
  }

  /** Once a root is saved or a positive version accepted, a pull of the run that has no
      root to check against is refused and touches neither files nor state: nothing
      unsigned is written any more, not even in part. */
  lemma NeverUnsignedAgain(c: Crypto, compile: Compiler, machine: string, pulls: seq<Pull>, outcomes: seq<Outcome>,
      trace: seq<Snapshot>, i: nat, k: nat)
    requires Sound(c) && Run(c, compile, machine, pulls, outcomes, trace) && i <= k < |pulls|
    requires trace[i].st.rootFP != "" || trace[i].st.version > 0
    ensures EffectiveRoot(trace[k].st, pulls[k]) == "" ==> outcomes[k].SignedRequired? && trace[k + 1] == trace[k]
    ensures !outcomes[k].UnsignedApplied? && !outcomes[k].UnsignedFailed?
  {
    hide VerifyAny, NextState, Written, PartlyWritten;
    RollbackSafety(c, compile, machine, pulls, outcomes, trace, i, k);
    assert Step(c, compile, machine, trace[k], pulls[k], outcomes[k], trace[k + 1]);
  }

  /** This pull, in this state, was served `p` and had every reason to accept it: at the
      time of the pull p was authentic under the root, outside the list served with it,
      under a chain that opens and unexpired, and neither p nor that list was older than
      the state had already accepted. */
  ghost predicate ServedAuthentic(c: Crypto, machine: string, rootFP: string, st: State, pull: Pull, p: Policy) {
    && pull.signed.Some?
    && var sp := pull.signed.value;
    && Authentic(c, sp, rootFP, machine, pull.now, p) && p.version >= st.version
    && var root := c.parseKey(sp.rootKey).value;
    && NotRolledBack(c, root, sp, st) && ChainOpens(c, root, sp.chain)
    && ExpiresAsSigned(c, sp, Trust(root, RevokedBy(c, root, sp)), pull.now, p)
  }

  /** The file content is what the policy of this pull gives the file. */
  ghost predicate SourcedBy(c: Crypto, compile: Compiler, machine: string, rootFP: string, st: State, pull: Pull,
      path: Path, content: Option<string>)
  {
    exists p, krl :: ServedAuthentic(c, machine, rootFP, st, pull, p)
      && compile(p.krlSpec + "\n") == Some(krl)
      && Target(ConfigOf(p, krl), path).Some? && Target(ConfigOf(p, krl), path) == content
  }

  /** A pull under a root changes a file only to what its own authentic policy gives it,
      even when it fails half way; refused and failed verifications change none. */
  lemma StepWritesSourced(c: Crypto, compile: Compiler, machine: string, s: Snapshot, pull: Pull, o: Outcome,
      s': Snapshot, path: Path)
    requires Step(c, compile, machine, s, pull, o, s') && EffectiveRoot(s.st, pull) != ""
    ensures At(s'.files, path) == At(s.files, path)
      || SourcedBy(c, compile, machine, EffectiveRoot(s.st, pull), s.st, pull, path, At(s'.files, path))
    ensures o.Rejected? || o.RootDiffers? || o.SignedRequired? ==> s' == s
  {
    hide VerifyAny, NextState, ServedAuthentic, Target, ConfigOf;
    var rootFP := EffectiveRoot(s.st, pull);
    if o.Applied? || o.SaveFailed? || o.WriteFailed? {
      var p := VerifyAny(c, pull.signed.value, rootFP, machine, s.st, pull.now).value;
      AcceptedIsServed(c, machine, rootFP, s.st, pull, p);
      if compile(p.krlSpec + "\n").Some? {
        var krl := compile(p.krlSpec + "\n").value;
        if o.WriteFailed? {
          PartlyIsBeforeOrTarget(s.files, s'.files, ConfigOf(p, krl), pull.fuel, path);
        }
        assert Target(ConfigOf(p, krl), path).Some? && At(s'.files, path) == Target(ConfigOf(p, krl), path) ==>
          SourcedBy(c, compile, machine, rootFP, s.st, pull, path, At(s'.files, path));
      }
    }
  }

  lemma AcceptedIsServed(c: Crypto, machine: string, rootFP: string, st: State, pull: Pull, p: Policy)
    requires pull.signed.Some? && VerifyAny(c, pull.signed.value, rootFP, machine, st, pull.now) == Ok(p)
    ensures ServedAuthentic(c, machine, rootFP, st, pull, p)
  {
    hide VerifyAny, Authentic, NotRolledBack, ChainOpens, ExpiresAsSigned, RevokedBy;
    AcceptedIffAuthentic(c, pull.signed.value, rootFP, machine, st, pull.now, p);
  }

  /** A pull applies a policy exactly when no other root is saved, a policy is served that
      is authentic and not below the saved floors, its revocation list compiles, every file
      can be replaced, and the new state can be saved. */
  lemma AppliedIff(c: Crypto, compile: Compiler, machine: string, s: Snapshot, pull: Pull, o: Outcome, s': Snapshot,
      p: Policy)
    requires Step(c, compile, machine, s, pull, o, s')
    ensures o == Applied(p) <==>
      && (pull.rootArg == "" || s.st.rootFP == "" || s.st.rootFP == pull.rootArg)
      && ServedAuthentic(c, machine, if pull.rootArg == "" then s.st.rootFP else pull.rootArg, s.st, pull, p)
      && (pull.signed.value.policy.payload != "" || pull.signed.value.accountPolicy.Some?)
      && compile(p.krlSpec + "\n").Some?
      && pull.fuel >= |WrittenUsers(p.grants)| + 2 && pull.saves
  {
    hide VerifyAny, Authentic, NotRolledBack, ChainOpens, ExpiresAsSigned, RevokedBy, NextState, Written, PartlyWritten,
      WrittenUsers;
    NoRootNothingServed(c, machine, s.st, pull, p);
    if pull.signed.Some? {
      AcceptedIffAuthentic(c, pull.signed.value, EffectiveRoot(s.st, pull), machine, s.st, pull.now, p);
    }
  }

  lemma NoRootNothingServed(c: Crypto, machine: string, st: State, pull: Pull, p: Policy)
    ensures !ServedAuthentic(c, machine, "", st, pull, p)
  {
    hide RevokedBy, HoldsDelegation, NotRolledBack, ChainOpens, ExpiresAsSigned, Opened;
  }

  // ----- what an applied pull leaves behind

  /** The version of a revocation list that reads as one whole JSON value. */
  function WholeListVersion(c: Crypto, b: Blob): Option<int> {
    match Decode(b.payload)
    case None => None
    case Some(payload) => match c.revocationsWhole(payload) case None => None case Some(r) => Some(r.version)
  }

  /** An applied pull saves its root, the policy's version and expiry, the format once it is
      the account format, and the version of the list if that reads as a whole; every other
      outcome leaves the state as it was. */
  lemma SavedState(c: Crypto, compile: Compiler, machine: string, s: Snapshot, pull: Pull, o: Outcome, s': Snapshot)
    requires Step(c, compile, machine, s, pull, o, s')
    ensures !o.Applied? ==> s'.st == s.st
    ensures o.Applied? ==>
      && pull.signed.Some?
      && s'.st.rootFP == (if pull.rootArg != "" then pull.rootArg else s.st.rootFP) && s'.st.rootFP != ""
      && s'.st.version == o.p.version && s'.st.krlExpires == o.p.krlExpires
      && s'.st.format ==
           (if pull.signed.value.accountPolicy.Some? && pull.signed.value.accountPolicy.value.payload != ""
            then "account" else s.st.format)
      && s'.st.revocationsVersion ==
           (match pull.signed.value.revocations
            case None => s.st.revocationsVersion
            case Some(b) =>
              var v := WholeListVersion(c, b);
              if v.Some? then v.value else s.st.revocationsVersion)
  {
    hide VerifyAny, Written, PartlyWritten, Decode;
  }

  /** The revocation list a response carries, opened under the root it carries. */
  function ServedList(c: Crypto, sp: Response): Option<Revocations> {
    match (c.parseKey(sp.rootKey), sp.revocations)
    case (Some(root), Some(b)) => Bind(Opened(c, root, CtxRevocations, b), c.revocations)
    case _ => None
  }

  /** What a pull that applies `p` was served, and the state it met. */
  lemma AppliedMeetsFloors(c: Crypto, compile: Compiler, machine: string, s: Snapshot, pull: Pull, p: Policy,
      s': Snapshot)
    requires Step(c, compile, machine, s, pull, Applied(p), s')
    ensures pull.signed.Some? && p.version >= s.st.version
    ensures var sp := pull.signed.value;
      && (s.st.format == "account" ==> IsAccountFormat(sp))
      && (if sp.revocations.None? then s.st.revocationsVersion <= 0
          else ServedList(c, sp).Some? && ServedList(c, sp).value.version >= s.st.revocationsVersion)
  {
    hide VerifyAny, Authentic, ChainOpens, ExpiresAsSigned, RevokedBy, Written, PartlyWritten, NextState, Opened;
    AcceptedIsServed(c, machine, EffectiveRoot(s.st, pull), s.st, pull, p);
    AuthenticRoot(c, pull.signed.value, EffectiveRoot(s.st, pull), machine, pull.now, p);
  }

  lemma AuthenticRoot(c: Crypto, sp: Response, rootFP: string, machine: string, now: int, p: Policy)
    requires Authentic(c, sp, rootFP, machine, now, p)
    ensures c.parseKey(sp.rootKey).Some?
  {
  }

  /** The list of an applied pull that reads as a whole raises the floor to its version. */
  lemma AppliedListSaved(c: Crypto, compile: Compiler, machine: string, s: Snapshot, pull: Pull, p: Policy,
      s': Snapshot)
    requires Sound(c) && Step(c, compile, machine, s, pull, Applied(p), s')
    requires pull.signed.value.revocations.Some?
    requires WholeListVersion(c, pull.signed.value.revocations.value).Some?
    ensures ServedList(c, pull.signed.value).Some?
    ensures s'.st.revocationsVersion == ServedList(c, pull.signed.value).value.version
  {
    hide Step, Decode, Message;
    SavedState(c, compile, machine, s, pull, Applied(p), s');
    AppliedMeetsFloors(c, compile, machine, s, pull, p, s');
  }

  /** Over every run, nothing older follows what was applied: policy versions do not fall,
      nor do list versions, no list is stripped after a positive version, and nothing in the
      per-machine format follows the account format. */
  lemma AppliedNeverGoesBack(c: Crypto, compile: Compiler, machine: string, pulls: seq<Pull>, outcomes: seq<Outcome>,
      trace: seq<Snapshot>, i: nat, j: nat, p: Policy, q: Policy)
    requires Sound(c) && Run(c, compile, machine, pulls, outcomes, trace) && i < j < |pulls|
    requires outcomes[i] == Applied(p) && outcomes[j] == Applied(q)
    ensures q.version >= p.version
    ensures pulls[i].signed.Some? && pulls[j].signed.Some?
    ensures var (first, later) := (pulls[i].signed.value, pulls[j].signed.value);
      && (IsAccountFormat(first) ==> IsAccountFormat(later))
      && (first.revocations.Some? && WholeListVersion(c, first.revocations.value).Some? ==>
            && ServedList(c, first).Some?
            && if later.revocations.Some?
               then ServedList(c, later).Some?
                 && ServedList(c, later).value.version >= ServedList(c, first).value.version
               else ServedList(c, first).value.version <= 0)
  {
    hide Step, ServedList, WholeListVersion, Sound;
    assert Step(c, compile, machine, trace[i], pulls[i], outcomes[i], trace[i + 1]);
    assert Step(c, compile, machine, trace[j], pulls[j], outcomes[j], trace[j + 1]);
    SavedState(c, compile, machine, trace[i], pulls[i], outcomes[i], trace[i + 1]);
    var first := pulls[i].signed.value;
    RollbackSafety(c, compile, machine, pulls, outcomes, trace, i + 1, j);
    AppliedMeetsFloors(c, compile, machine, trace[j], pulls[j], q, trace[j + 1]);
    if first.revocations.Some? && WholeListVersion(c, first.revocations.value).Some? {
      AppliedListSaved(c, compile, machine, trace[i], pulls[i], p, trace[i + 1]);
    }
  }

  /** Over every run, the root of an applied pull is the root of every later one: any other
      is refused as different, and nothing unsigned is even asked for. */
  lemma AppliedRootStays(c: Crypto, compile: Compiler, machine: string, pulls: seq<Pull>, outcomes: seq<Outcome>,
      trace: seq<Snapshot>, i: nat, j: nat, p: Policy)
    requires Sound(c) && Run(c, compile, machine, pulls, outcomes, trace) && i < j < |pulls|
    requires outcomes[i] == Applied(p)
    ensures EffectiveRoot(trace[i].st, pulls[i]) != ""
    ensures if pulls[j].rootArg != "" && pulls[j].rootArg != EffectiveRoot(trace[i].st, pulls[i])
      then outcomes[j] == RootDiffers && trace[j + 1] == trace[j]
      else EffectiveRoot(trace[j].st, pulls[j]) == EffectiveRoot(trace[i].st, pulls[i])
    ensures !outcomes[j].UnsignedApplied? && !outcomes[j].UnsignedFailed?
  {
    hide VerifyAny, NextState, Written, PartlyWritten, Sound;
    assert Step(c, compile, machine, trace[i], pulls[i], outcomes[i], trace[i + 1]);
    assert Step(c, compile, machine, trace[j], pulls[j], outcomes[j], trace[j + 1]);
    SavedState(c, compile, machine, trace[i], pulls[i], outcomes[i], trace[i + 1]);
    RollbackSafety(c, compile, machine, pulls, outcomes, trace, i + 1, j);
  }

  // ----- what sshd then reads

  /** Names that cannot leave their directory: at most 64 lower-case letters, digits, dashes
      and underscores, and at least one, so no separator, no dot and nothing empty. */
  lemma SafeUserNames(u: string)
    ensures SafeUser(u) ==> u != "" && '/' !in u && '\\' !in u && '.' !in u && '\0' !in u && '\n' !in u
    ensures SafeUser(u) <==>
      1 <= |u| <= 64 && forall ch :: ch in u ==> ch in "abcdefghijklmnopqrstuvwxyz" || ch in "0123456789_-"
  {
    hide SafeUser;
    SafeUserChars(u);
    forall ch: char
      ensures ch in "abcdefghijklmnopqrstuvwxyz" <==> 'a' <= ch <= 'z'
      ensures ch in "0123456789_-" <==> '0' <= ch <= '9' || ch == '_' || ch == '-'
    {
      Letters(ch);
    }
  }

  lemma SafeUserChars(u: string)
    ensures SafeUser(u) <==>
      1 <= |u| <= 64 && forall ch :: ch in u ==> 'a' <= ch <= 'z' || '0' <= ch <= '9' || ch == '_' || ch == '-'
  {
  }

  lemma Letters(ch: char)
    ensures ch in "abcdefghijklmnopqrstuvwxyz" <==> 'a' <= ch <= 'z'
    ensures ch in "0123456789_-" <==> '0' <= ch <= '9' || ch == '_' || ch == '-'
  {
  }

  /** The lines of a principals file: in ascending order, exactly those granted this user. */
  ghost predicate ListsPrincipals(text: string, grants: seq<Grant>, user: string) {
    exists names ::
      && SortedNames.Ascending(names) && text == Text.Join(names) + "\n"
      && forall n :: n in names <==> Grant(n, user) in grants
  }

  /** What sshd reads for one user: exactly the principals granted, if the user is safe and
      has a grant; otherwise what was there. */
  ghost predicate ReadsPrincipals(before: Files, after: Files, grants: seq<Grant>, user: string) {
    if SafeUser(user) && exists g :: g in grants && g.loginUser == user
    then At(after, Principals(user)).Some? && ListsPrincipals(At(after, Principals(user)).value, grants, user)
    else At(after, Principals(user)) == At(before, Principals(user))
  }

  /** After an applied pull sshd reads this policy and nothing else: its CA keys one to a
      line, its compiled list, and for each safe user with a grant exactly the principals
      granted; other principals files are as they were. */
  lemma AppliedFiles(c: Crypto, compile: Compiler, machine: string, s: Snapshot, pull: Pull, p: Policy, s': Snapshot,
      user: string)
    requires Step(c, compile, machine, s, pull, Applied(p), s')
    ensures At(s'.files, TrustedCAKeys) == Some(Text.Join(p.caKeys) + "\n")
    ensures compile(p.krlSpec + "\n").Some? && At(s'.files, RevokedKeys) == compile(p.krlSpec + "\n")
    ensures ReadsPrincipals(s.files, s'.files, p.grants, user)
  {
    hide VerifyAny, NextState, PartlyWritten, Written, ReadsPrincipals;
    WrittenFiles(s.files, s'.files, ConfigOf(p, compile(p.krlSpec + "\n").value), user);
  }

  /** Only a pull without any root, of an agent that never had a signed policy and was not
      told to require one, applies an unsigned one; it saves nothing. */
  lemma UnsignedFiles(c: Crypto, compile: Compiler, machine: string, s: Snapshot, pull: Pull, s': Snapshot,
      user: string)
    requires Step(c, compile, machine, s, pull, UnsignedApplied, s')
    ensures pull.rootArg == "" && s.st.rootFP == "" && s.st.version <= 0 && !pull.requireSigned && s'.st == s.st
    ensures pull.unsigned.Some?
    ensures var u := pull.unsigned.value;
      && At(s'.files, TrustedCAKeys) == Some(u.caKeys + "\n")
      && compile(u.krlSpec + "\n").Some? && At(s'.files, RevokedKeys) == compile(u.krlSpec + "\n")
      && ReadsPrincipals(s.files, s'.files, u.grants, user)
  {
    hide VerifyAny, NextState, PartlyWritten, Written, ReadsPrincipals;
    var u := pull.unsigned.value;
    WrittenFiles(s.files, s'.files, Config(u.caKeys, u.grants, compile(u.krlSpec + "\n").value), user);
  }

  lemma WrittenFiles(before: Files, after: Files, config: Config, user: string)
    requires Written(before, after, config)
    ensures At(after, TrustedCAKeys) == Some(config.caKeys + "\n") && At(after, RevokedKeys) == Some(config.krl)
    ensures ReadsPrincipals(before, after, config.grants, user)
  {
    hide SafeUser;
    assert At(after, TrustedCAKeys) == Target(config, TrustedCAKeys);
    assert At(after, RevokedKeys) == Target(config, RevokedKeys);
    var names := PrincipalsFor(config.grants, user);
    forall n
      ensures n in names <==> Grant(n, user) in config.grants
    {
    }
    if g :| g in config.grants && g.loginUser == user {
      assert g.principal in names;
    }
    ListedNames(names, config.grants, user);
  }

  lemma ListedNames(names: set<string>, grants: seq<Grant>, user: string)
    requires forall n :: n in names <==> Grant(n, user) in grants
    ensures ListsPrincipals(Text.Join(SortedNames.Listing(names)) + "\n", grants, user)
  {
    var ns := SortedNames.Listing(names);
    assert forall n :: n in ns <==> n in SortedNames.Elements(ns);
  }

  /** Pinned from snapshot `i` on: the root is saved by then, or every pull names it. */
  ghost predicate Pinned(pulls: seq<Pull>, trace: seq<Snapshot>, i: nat, rootFP: string)
    requires i < |trace| == |pulls| + 1
  {
    && rootFP != "" && (trace[i].st.rootFP == "" || trace[i].st.rootFP == rootFP)
    && (trace[i].st.rootFP == rootFP || forall k :: i <= k < |pulls| ==> pulls[k].rootArg == rootFP)
  }

  lemma {:induction false} PinnedRoot(c: Crypto, compile: Compiler, machine: string, pulls: seq<Pull>,
      outcomes: seq<Outcome>,
      trace: seq<Snapshot>, i: nat, j: nat, rootFP: string)
    requires Sound(c) && Run(c, compile, machine, pulls, outcomes, trace) && i <= j < |trace|
    requires Pinned(pulls, trace, i, rootFP)
    ensures trace[j].st.rootFP
      == rootFP || (trace[j].st.rootFP == "" && forall k :: i <= k < |pulls| ==> pulls[k].rootArg == rootFP)
    decreases j - i
  {
    hide VerifyAny, Written, PartlyWritten;
    if i < j {
      PinnedRoot(c, compile, machine, pulls, outcomes, trace, i, j - 1, rootFP);
      assert Step(c, compile, machine, trace[j - 1], pulls[j - 1], outcomes[j - 1], trace[j]);
    }
  }

  /** In every run under a pinned root, whatever the server answers and wherever writing
      stops, each file holds what it held at the start or what one of the run's pulls gave
      it from a policy that was authentic at that pull, by its time and its saved state. */
  lemma {:induction false} FilesAreAuthentic(c: Crypto, compile: Compiler, machine: string, pulls: seq<Pull>,
      outcomes: seq<Outcome>, trace: seq<Snapshot>, i: nat, j: nat, rootFP: string, path: Path)
    requires Sound(c) && Run(c, compile, machine, pulls, outcomes, trace) && i <= j < |trace|
    requires Pinned(pulls, trace, i, rootFP)
    ensures At(trace[j].files, path) == At(trace[i].files, path) || exists k ::
      i <= k < j && SourcedBy(c, compile, machine, rootFP, trace[k].st, pulls[k], path, At(trace[j].files, path))
    decreases j - i
  {
    hide Step, SourcedBy, At;
    if i < j {
      FilesAreAuthentic(c, compile, machine, pulls, outcomes, trace, i, j - 1, rootFP, path);
      PinnedRoot(c, compile, machine, pulls, outcomes, trace, i, j - 1, rootFP);
      var s, pull := trace[j - 1], pulls[j - 1];
      if EffectiveRoot(s.st, pull) == rootFP {
        StepWritesSourced(c, compile, machine, s, pull, outcomes[j - 1], trace[j], path);
      } else {
        OtherRootRefused(c, compile, machine, s, pull, outcomes[j - 1], trace[j]);
      }
    }
  }

  lemma OtherRootRefused(c: Crypto, compile: Compiler, machine: string, s: Snapshot, pull: Pull, o: Outcome,
      s': Snapshot)
    requires Step(c, compile, machine, s, pull, o, s')
    requires s.st.rootFP != "" && EffectiveRoot(s.st, pull) != s.st.rootFP
    ensures o == RootDiffers && s' == s
  {
    hide VerifyAny, NextState, Written, PartlyWritten;
  }

  /** In a run, a response refused for a floor, a stripped list or a format downgrade is
      refused in every later state, at every time. */
  lemma RefusedForGood(c: Crypto, compile: Compiler, machine: string, pulls: seq<Pull>, outcomes: seq<Outcome>,
      trace: seq<Snapshot>, i: nat, j: nat, sp: Response, rootFP: string, now: int, when: int)
    requires Sound(c) && Run(c, compile, machine, pulls, outcomes, trace) && i <= j < |trace|
    requires VerifyAny(c, sp, rootFP, machine, trace[i].st, now).Err?
    requires RefusedByState(VerifyAny(c, sp, rootFP, machine, trace[i].st, now).error)
    ensures VerifyAny(c, sp, rootFP, machine, trace[j].st, when).Err?
  {
    hide VerifyAny, Step;
    RollbackSafety(c, compile, machine, pulls, outcomes, trace, i, j);
    RefusalPersists(c, sp, rootFP, machine, trace[i].st, now, trace[j].st, when);
  }
}
