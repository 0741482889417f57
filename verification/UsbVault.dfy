/** A private key on a USB drive: the ordered file operations that put it there, each of
    which may fail or be cut short, and what every run of attempts leaves behind. */
module UsbVault {
  import opened Gf256
  import opened Prelude
  import opened Wrap

  const KEY_SIZE := 64
  const IGNORABLE := {
    "System Volume Information", ".Trashes", ".Spotlight-V100", ".fseventsd",
    ".DS_Store", "._.Trashes", "lost+found", ".metadata_never_index" }

  // ----- the drive

  /** Contents, and whether they have reached the medium: until then a power loss may
      leave anything in their place. */
  datatype File = File(data: seq<byte>, synced: bool)

  /** The entry called P3SIG. */
  datatype Folder = NoFolder | NotAFolder | Folder(key: Option<File>, partial: Option<File>, pub: Option<string>)

  /** The other names in the root, and P3SIG. */
  datatype Disk = Disk(others: seq<string>, folder: Folder)

  function KeyOf(d: Disk): Option<File> {
    if d.folder.Folder? then d.folder.key else None
  }

  /** Something else is stored here. */
  ghost predicate InUse(d: Disk) {
    exists name :: name in d.others && name !in IGNORABLE
  }

  // ----- faults

  /** What becomes of one operation. */
  datatype Fault = Fine | Fails | CrashBefore | CrashAfter

  /** What becomes of each operation of one attempt; `written` and `pubWritten` are how
      far an incomplete write gets. A `link` that fails is a drive without hard links. */
  datatype World = World(
    firstStatFails: bool, readDirFails: bool,
    mkdir: Fault, secondStatFails: bool, remove: Fault, create: Fault, write: Fault, written: nat,
    sync: Fault, close: Fault, link: Fault, thirdStatFails: bool, rename: Fault, cleanup: Fault,
    pub: Fault, pubWritten: nat, readFails: bool)

  datatype Status = Done | Error | Crashed

  function StatusOf(f: Fault): Status {
    match f case Fine => Done case Fails => Error case _ => Crashed
  }

  /** Everything but the stats and the hard link goes well. */
  predicate OtherwiseCalm(w: World) {
    && !w.readDirFails && !w.readFails
    && w.mkdir == w.remove == w.create == w.write == w.sync == w.close == w.rename == w.cleanup == w.pub == Fine
    && (w.link == Fine || w.link == Fails)
  }

  predicate StatsHonest(w: World) {
    !w.firstStatFails && !w.secondStatFails && !w.thirdStatFails
  }

  predicate Calm(w: World) {
    OtherwiseCalm(w) && StatsHonest(w)
  }

  /** No hard links, and the stats of an existing key before writing and before renaming
      both fail. */
  predicate KeyHidden(w: World) {
    w.secondStatFails && w.thirdStatFails && w.link == Fails
  }

  predicate Leftover(d: Disk) {
    d.folder.Folder? && d.folder.partial.Some?
  }

  /** The key file gets its name: by a hard link to no key, or else by a rename over none
      that is seen. */
  predicate Publishes(d: Disk, w: World) {
    if w.link == Fine then KeyOf(d).None?
    else w.link == Fails && w.rename == Fine && (KeyOf(d).None? || w.thirdStatFails)
  }

  /** What writing needs: no key seen, an empty temporary file, all of the blob on the
      medium under its name. A leftover that is not there need not be removable, and
      neither cleaning up nor the public key file matters, short of a crash. */
  predicate Succeeds(d: Disk, w: World) {
    && !d.folder.NotAFolder? && (KeyOf(d).None? || w.secondStatFails)
    && w.mkdir == w.create == w.write == w.sync == w.close == Fine
    && (w.remove == Fine || (w.remove == Fails && !Leftover(d)))
    && Publishes(d, w)
    && (w.cleanup == Fine || w.cleanup == Fails) && (w.pub == Fine || w.pub == Fails)
  }

  predicate Crash(f: Fault) {
    f == CrashBefore || f == CrashAfter
  }

  predicate Crashes(w: World) {
    || Crash(w.mkdir) || Crash(w.remove) || Crash(w.create) || Crash(w.write) || Crash(w.sync) || Crash(w.close)
    || Crash(w.link) || Crash(w.rename) || Crash(w.cleanup) || Crash(w.pub)
  }

  function Prefix<T>(s: seq<T>, n: nat): seq<T> {
    if n < |s| then s[..n] else s
  }

  // ----- what writing and storing must achieve

  /** writeUSBKey from `d` to `after`: a present key is kept unless it is hidden, an
      absent one is left absent or becomes the whole blob, on the medium. */
  ghost predicate Wrote(d: Disk, blob: seq<byte>, pub: string, w: World, after: Disk, s: Status) {
    && after.others == d.others && (after.folder.NotAFolder? <==> d.folder.NotAFolder?)
    && (d.folder.NotAFolder? ==> after == d && s == Error)
    && (KeyOf(d).Some? && !w.secondStatFails ==> after == d && s != Done)
    && (KeyOf(d).Some? && !KeyHidden(w) ==> KeyOf(after) == KeyOf(d) && s != Done)
    && (KeyOf(after) == KeyOf(d) || KeyOf(after) == Some(File(blob, true)))
    && (s == Done ==> KeyOf(after) == Some(File(blob, true)))
    && (s == Done <==> Succeeds(d, w)) && (s == Crashed ==> Crashes(w))
    && (s == Error ==> KeyOf(after) == KeyOf(d))
    && (OtherwiseCalm(w) && !d.folder.NotAFolder? && (KeyOf(d).None? || KeyHidden(w)) ==>
          s == Done && after.folder == Folder(Some(File(blob, true)), None, Some(pub)))
  }

  datatype StoreError = Used(name: string) | IoError | WriteFailed | WrongPassphrase | BadKey | Different | Interrupted

  /** readUSBKey */
  function ReadKey(c: Crypto, d: Disk, passphrase: seq<byte>, fails: bool): Result<seq<byte>, StoreError> {
    if fails || KeyOf(d).None? then Err(IoError)
    else
      match UnwrapPassphrase(c, KeyOf(d).value.data, passphrase)
      case Err(_) => Err(WrongPassphrase)
      case Ok(raw) => if |raw| != KEY_SIZE then Err(BadKey) else Ok(raw)
  }

  /** What reading a key back can say. */
  lemma ReadKeyIs(c: Crypto, d: Disk, passphrase: seq<byte>, fails: bool, key: seq<byte>)
    ensures var r := ReadKey(c, d, passphrase, fails);
      && (r == Err(IoError) <==> fails || KeyOf(d) == None)
      && (!fails && KeyOf(d).Some? ==>
            var raw := UnwrapPassphrase(c, KeyOf(d).value.data, passphrase);
            && (r == Err(WrongPassphrase) <==> raw.Err?)
            && (r == Err(BadKey) <==> raw.Ok? && |raw.value| != 64)
            && (r == Ok(key) <==> raw == Ok(key) && |key| == 64))
  {
    hide UnwrapPassphrase;
  }

  /** One call of storeOnUSB: what it is to store, the random salt and nonce, the text
      of the public key file, and the world it meets. */
  datatype Attempt = Attempt(
    key: seq<byte>, passphrase: seq<byte>, params: Argon2Params, salt: seq<byte>, nonce: seq<byte>, pub: string,
      w: World)

  predicate Proper(a: Attempt) {
    Computable(a.params) && |a.salt| == SALT_LEN && |a.nonce| == NONCE_LEN
  }

  function BlobOf(c: Crypto, a: Attempt): seq<byte>
    requires Proper(a)
  {
    WrapPassphrase(c, a.key, a.passphrase, a.params, a.salt, a.nonce)
  }

  /** The read-back: the drive must hold this key under this passphrase. */
  function Verdict(c: Crypto, d: Disk, a: Attempt): Result<(), StoreError> {
    match ReadKey(c, d, a.passphrase, a.w.readFails)
    case Err(e) => Err(e)
    case Ok(key) => if key == a.key then Ok(()) else Err(Different)
  }

  /** storeOnUSB from `d` to `after`. */
  ghost predicate Stored(c: Crypto, d: Disk, a: Attempt, after: Disk, r: Result<(), StoreError>)
    requires Proper(a)
  {
    && after.others == d.others && (after.folder.NotAFolder? <==> d.folder.NotAFolder?)
    && (KeyOf(d).None? || a.w.firstStatFails ==>
          && (a.w.readDirFails ==> after == d && r == Err(IoError))
          && (!a.w.readDirFails && InUse(d) ==>
                after == d && r.Err? && r.error.Used? && r.error.name in d.others && r.error.name !in IGNORABLE))
    && (r == Err(Interrupted) ==> Crashes(a.w))
    && (KeyOf(d).Some? && !a.w.firstStatFails ==> after == d && r == Verdict(c, d, a))
    && (KeyOf(d).Some? && !KeyHidden(a.w) ==> KeyOf(after) == KeyOf(d))
    && (KeyOf(after) == KeyOf(d) || KeyOf(after) == Some(File(BlobOf(c, a), true)))
    && (r.Ok? ==> ReadKey(c, after, a.passphrase, false) == Ok(a.key))
    && (KeyOf(d).None? && !InUse(d) && !a.w.readDirFails ==>
          if Succeeds(d, a.w) then KeyOf(after) == Some(File(BlobOf(c, a), true)) && r == Verdict(c, after, a)
          else r.Err? && (r.error.WriteFailed? || r.error.Interrupted?))
    && (OtherwiseCalm(a.w) && !InUse(d) && !d.folder.NotAFolder? && KeyOf(d).None? ==>
          KeyOf(after) == Some(File(BlobOf(c, a), true)) && r == Verdict(c, after, a))
    && (OtherwiseCalm(a.w) && !InUse(d) && KeyOf(d).Some? && a.w.firstStatFails && KeyHidden(a.w) ==>
          KeyOf(after) == Some(File(BlobOf(c, a), true)))
  }

  // ----- the file operations

  class Drive {
    var others: seq<string>
    var folder: Folder

    ghost function Contents(): Disk
      reads this
    {
      Disk(others, folder)
    }

    /** One atomic operation that would leave the folder as `effect`. */
    method Perform(f: Fault, effect: Folder) returns (s: Status)
      modifies this`folder
      ensures s == StatusOf(f)
      ensures folder == if f == Fine || f == CrashAfter then effect else old(folder)
    {
      if f == Fine || f == CrashAfter {
        folder := effect;
      }
      s := StatusOf(f);
    }

    /** os.Stat of the key file succeeds. */
    function Stat(fails: bool): bool
      reads this
    {
      folder.Folder? && folder.key.Some? && !fails
    }

    /** usbState: true for a drive that holds a key, false for a blank one. */
    method State(w: World) returns (r: Result<bool, StoreError>)
      ensures KeyOf(Contents()).Some? && !w.firstStatFails ==> r == Ok(true)
      ensures !(KeyOf(Contents()).Some? && !w.firstStatFails) ==>
        if w.readDirFails then r == Err(IoError)
        else if InUse(Contents()) then r.Err? && r.error.Used? && r.error.name in others && r.error.name !in IGNORABLE
        else r == Ok(false)
    {
      if Stat(w.firstStatFails) {
        return Ok(true);
      }
      if w.readDirFails {
        return Err(IoError);
      }
      for i := 0 to |others|
        invariant forall k :: 0 <= k < i ==> others[k] in IGNORABLE
      {
        if others[i] !in IGNORABLE {
          return Err(Used(others[i]));
        }
      }
      r := Ok(false);
    }

    /** writeUSBKey: folder, stat, fresh temporary file, write, sync, close, then a hard
        link to the final name, or a rename where there are no hard links. */
    method WriteKey(blob: seq<byte>, pub: string, w: World) returns (s: Status)
      modifies this`folder
      ensures Wrote(old(Contents()), blob, pub, w, Contents(), s)
    {
      s := Prepare(w);
      if s != Done {
        return;
      }
      s := WriteAndSync(blob, w);
      if s == Crashed {
        return;
      }
      var err := s == Error;
      if !err {
        s := Publish(w);
        if s == Crashed {
          return;
        }
        err := s == Error;
      }
      s := Perform(w.cleanup, folder.(partial := None));
      if s == Crashed {
        return;
      }
      if err {
        return Error;
      }
      s := Perform(w.pub, folder.(pub := Some(pub)));
      if s == Error {
        folder := folder.(pub := Some(Prefix(pub, w.pubWritten)));
        s := Done;
      }
    }

    /** Makes the folder and an empty temporary file in it, unless a key is there. */
    method Prepare(w: World) returns (s: Status)
      modifies this`folder
      ensures folder == old(folder) || (folder.Folder? && !old(folder).NotAFolder?
        && folder.key == KeyOf(old(Contents())) && (old(folder).Folder? ==> folder.pub == old(folder.pub)))
      ensures old(folder).NotAFolder? ==> s == Error
      ensures s == Crashed ==> Crashes(w)
      ensures KeyOf(old(Contents())).Some? && !w.secondStatFails ==> folder == old(folder) && s != Done
      ensures s == Done ==> folder.Folder?
      ensures s == Done <==>
        && !old(folder).NotAFolder? && (KeyOf(old(Contents())).None? || w.secondStatFails)
        && w.mkdir == w.create == Fine && (w.remove == Fine || (w.remove == Fails && !Leftover(old(Contents()))))
    {
      if folder.NotAFolder? {
        return Error;
      }
      s := Perform(w.mkdir, if folder.NoFolder? then Folder(None, None, None) else folder);
      if s != Done {
        return;
      }
      if Stat(w.secondStatFails) {
        return Error;
      }
      s := Perform(w.remove, folder.(partial := None));
      if s == Crashed {
        return;
      }
      if folder.partial.Some? {
        return Error;
      }
      s := Perform(w.create, folder.(partial := Some(File([], false))));
    }

    /** Fills the temporary file; done only once all of it is on the medium. */
    method WriteAndSync(blob: seq<byte>, w: World) returns (s: Status)
      requires folder.Folder?
      modifies this`folder
      ensures folder.Folder? && folder == old(folder).(partial := folder.partial) && folder.partial.Some?
      ensures s == Done ==> folder.partial == Some(File(blob, true))
      ensures s == Crashed ==> Crashes(w)
      ensures s == Done <==> w.write == w.sync == w.close == Fine
    {
      s := Perform(w.write, folder.(partial := Some(File(blob, false))));
      if s != Done {
        if w.write != CrashAfter {
          folder := folder.(partial := Some(File(Prefix(blob, w.written), false)));
        }
        if s == Crashed {
          return;
        }
      }
      var err := s == Error;
      if !err {
        s := Perform(w.sync, folder.(partial := Some(File(blob, true))));
        if s == Crashed {
          return;
        }
        err := s == Error;
      }
      s := Perform(w.close, folder);
      if s == Done && err {
        s := Error;
      }
    }

    /** Gives the finished temporary file its final name. */
    method Publish(w: World) returns (s: Status)
      requires folder.Folder? && folder.partial.Some?
      modifies this`folder
      ensures folder.Folder? && folder.pub == old(folder.pub)
      ensures folder.key == old(folder.key) || folder.key == old(folder.partial)
      ensures s == Done ==> folder.key == old(folder.partial)
      ensures s == Error ==> folder.key == old(folder.key)
      ensures s == Crashed ==> Crashes(w)
      ensures old(folder.key).Some? && !(w.link == Fails && w.thirdStatFails) ==>
        folder.key == old(folder.key) && s != Done
      ensures s == Done <==> Publishes(old(Contents()), w)
    {
      if folder.key.Some? && w.link != Fails {
        return if StatusOf(w.link) == Crashed then Crashed else Error;
      }
      s := Perform(w.link, folder.(key := folder.partial));
      if s == Error {
        if Stat(w.thirdStatFails) {
          return Error;
        }
        s := Perform(w.rename, folder.(key := folder.partial, partial := None));
      }
    }

    /** storeOnUSB: refuse a used drive, resume one that holds a key, write a blank one,
        and in every case read the key back. */
    method Store(c: Crypto, a: Attempt) returns (r: Result<(), StoreError>)
      requires Proper(a)
      modifies this`folder
      ensures Stored(c, old(Contents()), a, Contents(), r)
    {
      hide InUse, UnwrapPassphrase, WrapPassphrase;
      var st := State(a.w);
      if st.Err? {
        return Err(st.error);
      }
      if !st.value {
        var blob := SealPassphrase(c, a.key, a.passphrase, a.params, a.salt, a.nonce);
        var s := WriteKey(blob, a.pub, a.w);
        if s != Done {
          return Err(if s == Crashed then Interrupted else WriteFailed);
        }
      }
      var got := ReadKey(c, Disk(others, folder), a.passphrase, a.w.readFails);
      if got.Err? {
        return Err(got.error);
      }
      if got.value != a.key {
        return Err(Different);
      }
      r := Ok(());
    }
  }

  // ----- runs

  /** An attempt and its result, or a power loss that leaves `garbage` in a temporary
      file that had not reached the medium. */
  datatype Event = Tried(a: Attempt, r: Result<(), StoreError>) | PowerLost(garbage: seq<byte>)

  function Spoil(f: Option<File>, garbage: seq<byte>): Option<File> {
    if f.Some? && !f.value.synced then Some(File(garbage, true)) else f
  }

  function AfterPowerLoss(d: Disk, garbage: seq<byte>): Disk {
    if d.folder.Folder?
    then d.(folder := d.folder.(key := Spoil(d.folder.key, garbage), partial := Spoil(d.folder.partial, garbage)))
    else d
  }

  ghost predicate Step(c: Crypto, d: Disk, e: Event, after: Disk) {
    match e
    case Tried(a, r) => Proper(a) && Stored(c, d, a, after, r)
    case PowerLost(garbage) => after == AfterPowerLoss(d, garbage)
  }

  /** The states of the drive before, between and after the events. */
  ghost predicate Run(c: Crypto, trace: seq<Disk>, events: seq<Event>) {
    && |trace| == |events| + 1
    && forall i :: 0 <= i < |events| ==> Step(c, trace[i], events[i], trace[i + 1])
  }

  /** No attempt of the run has a present key hidden from it. */
  predicate Visible(events: seq<Event>) {
    forall i :: 0 <= i < |events| && events[i].Tried? ==> !KeyHidden(events[i].a.w)
  }

  /** The key file, if there is one, is on the medium. */
  predicate Settled(d: Disk) {
    KeyOf(d).Some? ==> KeyOf(d).value.synced
  }

  lemma StepKeepsKey(c: Crypto, d: Disk, e: Event, after: Disk)
    requires Step(c, d, e, after) && Settled(d)
    ensures after.others == d.others && (after.folder.NotAFolder? <==> d.folder.NotAFolder?) && Settled(after)
    ensures KeyOf(d).Some? && (e.Tried? ==> !KeyHidden(e.a.w)) ==> KeyOf(after) == KeyOf(d)
    ensures KeyOf(after) == KeyOf(d) || (e.Tried? && Proper(e.a) && KeyOf(after) == Some(File(BlobOf(c, e.a), true)))
  {
    hide InUse, BlobOf, ReadKey;
  }

  /** A key that is on the drive stays there, byte for byte, through failed attempts,
      crashes and power losses; and the rest of the drive is never touched. */
  lemma {:induction false} KeyNeverChanges(c: Crypto, trace: seq<Disk>, events: seq<Event>, i: nat, j: nat)
    requires Run(c, trace, events) && Settled(trace[0]) && i <= j < |trace|
    ensures Settled(trace[i]) && Settled(trace[j]) && trace[j].others == trace[i].others
    ensures trace[j].folder.NotAFolder? <==> trace[i].folder.NotAFolder?
    ensures Visible(events) && KeyOf(trace[i]).Some? ==> KeyOf(trace[j]) == KeyOf(trace[i])
    decreases j
  {
    hide Step, Settled;
    if i < j {
      KeyNeverChanges(c, trace, events, i, j - 1);
      StepKeepsKey(c, trace[j - 1], events[j - 1], trace[j]);
    } else if j > 0 {
      KeyNeverChanges(c, trace, events, j - 1, j - 1);
      StepKeepsKey(c, trace[j - 1], events[j - 1], trace[j]);
    }
  }

  /** The drive holds the whole wrapped blob of one of the first `j` events. */
  ghost predicate HoldsOneOf(c: Crypto, d: Disk, events: seq<Event>, j: nat)
    requires j <= |events|
  {
    exists i :: 0 <= i < j && events[i].Tried? && Proper(events[i].a)
      && KeyOf(d) == Some(File(BlobOf(c, events[i].a), true))
  }

  /** At every moment of a run that starts without a key, the key file is absent or one
      complete wrapped blob. */
  lemma {:induction false} AbsentOrComplete(c: Crypto, trace: seq<Disk>, events: seq<Event>, j: nat)
    requires Run(c, trace, events) && KeyOf(trace[0]).None? && j < |trace|
    ensures KeyOf(trace[j]).None? || HoldsOneOf(c, trace[j], events, j)
    decreases j
  {
    hide Step, BlobOf, Proper;
    if j > 0 {
      AbsentOrComplete(c, trace, events, j - 1);
      KeyNeverChanges(c, trace, events, 0, j - 1);
      StepKeepsKey(c, trace[j - 1], events[j - 1], trace[j]);
      if KeyOf(trace[j - 1]).None? && KeyOf(trace[j]).Some? {
        assert events[j - 1].Tried?;
      }
    }
  }

  /** Every attempt is for this key and passphrase. */
  predicate AllFor(events: seq<Event>, key: seq<byte>, passphrase: seq<byte>) {
    forall i :: 0 <= i < |events| && events[i].Tried? ==>
      events[i].a.key == key && events[i].a.passphrase == passphrase && InBounds(Chosen(events[i].a.params))
  }

  lemma ReadsBack(c: Crypto, d: Disk, a: Attempt)
    requires Sound(c) && Proper(a) && |a.key| == KEY_SIZE && KeyOf(d) == Some(File(BlobOf(c, a), true))
    ensures ReadKey(c, d, a.passphrase, false) == if InBounds(Chosen(a.params)) then Ok(a.key) else Err(WrongPassphrase)
  {
    hide UnwrapPassphrase, WrapPassphrase, InBounds;
    PassphraseRoundTrip(c, a.key, a.passphrase, a.params, a.salt, a.nonce);
  }

  /** After any run of attempts to store one key on a blank drive, one more attempt that
      meets no fault succeeds, and the key reads back from the drive. */
  lemma RerunSucceeds(c: Crypto, trace: seq<Disk>, events: seq<Event>, key: seq<byte>, passphrase: seq<byte>)
    requires Sound(c) && Run(c, trace, events) && |key| == KEY_SIZE
    requires KeyOf(trace[0]).None? && !trace[0].folder.NotAFolder? && !InUse(trace[0])
      && AllFor(events, key, passphrase)
    requires events != [] && events[|events| - 1].Tried? && Calm(events[|events| - 1].a.w)
    ensures events[|events| - 1].r == Ok(())
    ensures ReadKey(c, trace[|events|], passphrase, false) == Ok(key)
  {
    hide ReadKey, BlobOf, Proper, InBounds, Chosen;
    var n := |events| - 1;
    var a, d := events[n].a, trace[n];
    AbsentOrComplete(c, trace, events, n);
    KeyNeverChanges(c, trace, events, 0, n);
    assert Step(c, d, events[n], trace[n + 1]);
    if KeyOf(d).None? {
      ReadsBack(c, trace[n + 1], a);
    } else {
      var i :| 0 <= i < n && events[i].Tried? && Proper(events[i].a)
        && KeyOf(d) == Some(File(BlobOf(c, events[i].a), true));
      ReadsBack(c, d, events[i].a);
    }
  }

  /** On a drive without a key, storing succeeds exactly when nothing else is there, no fault
      hits what listing, writing and reading need, and the parameters are within the bounds
      that reading checks. */
  lemma StoreSucceedsIff(c: Crypto, d: Disk, a: Attempt, after: Disk, r: Result<(), StoreError>)
    requires Sound(c) && Proper(a) && |a.key| == KEY_SIZE && Stored(c, d, a, after, r)
    requires KeyOf(d).None?
    ensures r == Ok(()) <==>
      !InUse(d) && !a.w.readDirFails && Succeeds(d, a.w) && !a.w.readFails && InBounds(Chosen(a.params))
  {
    hide BlobOf, InBounds, Chosen, InUse;
    if !InUse(d) && !a.w.readDirFails && Succeeds(d, a.w) {
      ReadsBack(c, after, a);
    }
  }

  /** With no fault, storing on a blank drive succeeds exactly when the parameters are
      within the bounds that reading checks; otherwise the drive is left holding a blob
      that this attempt, and every repetition of it, reports as unreadable. */
  lemma StoreOnBlankIff(c: Crypto, d: Disk, a: Attempt, after: Disk, r: Result<(), StoreError>)
    requires Sound(c) && Proper(a) && |a.key| == KEY_SIZE && Stored(c, d, a, after, r)
    requires Calm(a.w) && KeyOf(d).None? && !InUse(d) && !d.folder.NotAFolder?
    ensures r == if InBounds(Chosen(a.params)) then Ok(()) else Err(WrongPassphrase)
    ensures forall again, r' :: Stored(c, after, a, again, r') ==> again == after && r' == r
  {
    hide BlobOf, InBounds, Chosen, InUse;
    ReadsBack(c, after, a);
  }

  /** In every run from a drive that holds a key, an attempt succeeds only if that first key
      is the one it stores, under its passphrase: another key is never taken for it, never
      replaces it, and a calm attempt says exactly whether it is there. */
  lemma OtherKeyRefused(c: Crypto, trace: seq<Disk>, events: seq<Event>, i: nat)
    requires Run(c, trace, events) && Visible(events) && Settled(trace[0]) && KeyOf(trace[0]).Some?
    requires i < |events| && events[i].Tried?
    ensures KeyOf(trace[i + 1]) == KeyOf(trace[0])
    ensures var a := events[i].a;
      var holds := ReadKey(c, trace[0], a.passphrase, false) == Ok(a.key);
      && (events[i].r.Ok? ==> holds)
      && (Calm(a.w) ==> trace[i + 1] == trace[i] && (events[i].r.Ok? <==> holds))
      && (Calm(a.w) ==>
            var there := ReadKey(c, trace[0], a.passphrase, false);
            (there.Ok? && there != Ok(a.key) ==> events[i].r == Err(Different))
            && (there.Err? ==> events[i].r == Err(there.error)))
  {
    hide InUse, BlobOf, UnwrapPassphrase, Settled;
    KeyNeverChanges(c, trace, events, 0, i);
    KeyNeverChanges(c, trace, events, 0, i + 1);
    assert Step(c, trace[i], events[i], trace[i + 1]);
  }

  /** Without faults other than in the stats and the hard link, a present key is replaced
      exactly when it is hidden: no hard links, and all three stats of it fail. */
  lemma ReplacedIffHidden(c: Crypto, d: Disk, a: Attempt, after: Disk, r: Result<(), StoreError>)
    requires Proper(a) && Stored(c, d, a, after, r) && OtherwiseCalm(a.w) && !InUse(d)
    requires KeyOf(d).Some? && KeyOf(d) != Some(File(BlobOf(c, a), true))
    ensures KeyOf(after) != KeyOf(d) <==> a.w.firstStatFails && KeyHidden(a.w)
  {
    hide InUse, BlobOf;
  }
}
