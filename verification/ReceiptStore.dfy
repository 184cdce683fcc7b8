// The receipt store (internal/receipt/store.go): a disk whose directory entries are volatile until their
// directory is synced, the file operations of one Publish, and the code that issues them.
module ReceiptStore {
  import opened Text

  datatype Receipt = Receipt(runId: string, finishedAt: string, content: string)

  // SHA-256, taken to be without collisions.
  datatype Digest = Sha256(of: Data)

  // A receipt's file name: a time stamp and the first six bytes of its digest. Different receipts may
  // have the same name.
  datatype Name = Name(stamp: string, prefix: string)

  // What the bytes of a file encode.
  datatype Data =
    | Record(receipt: Receipt)
    | Index(runId: string, name: Name, digest: Digest)
    | Other(text: string)

  datatype File = File(data: Data, synced: bool)

  const EMPTY := File(Other(""), false)

  // A directory entry: what it holds now, and everything a crash might leave in it.
  datatype Slot<T(==)> = Slot(now: T, disk: set<T>)
  {
    function Put(value: T): Slot<T> { Slot(value, disk + {value}) }

    function Flushed(): Slot<T> { Slot(now, {now}) }

    predicate Settled() { disk == {now} }
  }

  type Entry = Slot<Option<File>>

  const ABSENT: Entry := Slot(None, {None})

  // The state directory, the receipts directory in it, current.json, and the receipts.
  datatype Disk = Disk(root: Slot<bool>, dir: Slot<bool>, current: Entry, receipts: map<Name, Entry>)

  function At(disk: Disk, name: Name): Entry {
    if name in disk.receipts then disk.receipts[name] else ABSENT
  }

  // ---- File operations ----

  function WithRoot(disk: Disk): Disk {
    if disk.root.now then disk else Disk(disk.root.Put(true), Slot(false, {false}), ABSENT, map[])
  }

  function WithDir(disk: Disk): Disk {
    if disk.dir.now then disk else disk.(dir := disk.dir.Put(true), receipts := map[])
  }

  function WithLink(disk: Disk, name: Name, file: File): Disk {
    disk.(receipts := disk.receipts[name := At(disk, name).Put(Some(file))])
  }

  function WithReceiptsSynced(disk: Disk): Disk {
    disk.(receipts := map name | name in disk.receipts :: disk.receipts[name].Flushed())
  }

  function WithCurrent(disk: Disk, file: Option<File>): Disk {
    disk.(current := disk.current.Put(file))
  }

  function WithRootSynced(disk: Disk): Disk {
    disk.(dir := disk.dir.Flushed(), current := disk.current.Flushed())
  }

  // ---- One Publish, operation by operation ----

  // What a temporary file is staged for; the previous index is what a failed update goes back to.
  datatype Purpose = ForReceipt | ForCurrent(previous: Option<Data>) | ForRollback(restored: Data)

  datatype Progress = Create | Write | Sync | Close

  // The operation that comes next. Temporary files have names of their own and are never shared.
  datatype Phase =
    | MakeRoot
    | SecureRoot
    | MakeDir
    | SecureDir
    | Stage(purpose: Purpose, progress: Progress, temp: File)
    | Link(temp: File)
    | Unlink
    | SyncReceipts
    | ReadPrevious
    | Rename(previous: Option<Data>, temp: File)
    | SyncRoot(previous: Option<Data>)
    | Restore(temp: File)
    | SyncRestored
    | RemoveCurrent
    | Done
    | Failed

  datatype Job = Job(receipt: Receipt, name: Name, phase: Phase)
  {
    function Record(): Data { Data.Record(receipt) }

    function Index(): Data { Data.Index(receipt.runId, name, Sha256(Record())) }

    function DataFor(purpose: Purpose): Data {
      match purpose
      case ForReceipt => Record()
      case ForCurrent(_) => Index()
      case ForRollback(previous) => previous
    }
  }

  function Staged(purpose: Purpose, temp: File): Phase {
    match purpose
    case ForReceipt => Link(temp)
    case ForCurrent(previous) => Rename(previous, temp)
    case ForRollback(_) => Restore(temp)
  }

  function Unstaged(purpose: Purpose): Phase {
    if purpose.ForRollback? then RemoveCurrent else Failed
  }

  // One operation and whether the operating system reports that it worked.
  function Advance(disk: Disk, job: Job, ok: bool): (Disk, Phase) {
    match job.phase
    case MakeRoot => if ok then (WithRoot(disk), SecureRoot) else (disk, Failed)
    case SecureRoot => (disk, if ok then MakeDir else Failed)
    case MakeDir => if ok then (WithDir(disk), SecureDir) else (disk, Failed)
    case SecureDir => (disk, if ok then Stage(ForReceipt, Create, EMPTY) else Failed)
    case Stage(purpose, progress, temp) =>
      (disk,
       if !ok then Unstaged(purpose)
       else match progress
            case Create => Stage(purpose, Write, EMPTY)
            case Write => Stage(purpose, Sync, File(job.DataFor(purpose), false))
            case Sync => Stage(purpose, Close, temp.(synced := true))
            case Close => Staged(purpose, temp))
    case Link(temp) =>
      if ok && At(disk, job.name).now.None? then (WithLink(disk, job.name, temp), Unlink) else (disk, Failed)
    case Unlink => (disk, if ok then SyncReceipts else Failed)
    case SyncReceipts => if ok then (WithReceiptsSynced(disk), ReadPrevious) else (disk, Failed)
    case ReadPrevious =>
      (disk,
       if !ok then Failed
       else Stage(ForCurrent(if disk.current.now.Some? then Some(disk.current.now.value.data) else None), Create, EMPTY))
    case Rename(previous, temp) => if ok then (WithCurrent(disk, Some(temp)), SyncRoot(previous)) else (disk, Failed)
    case SyncRoot(previous) =>
      if ok then (WithRootSynced(disk), Done)
      else (disk, if previous.Some? then Stage(ForRollback(previous.value), Create, EMPTY) else RemoveCurrent)
    case Restore(temp) => if ok then (WithCurrent(disk, Some(temp)), SyncRestored) else (disk, RemoveCurrent)
    case SyncRestored => (if ok then WithRootSynced(disk) else disk, Failed)
    case RemoveCurrent => (if ok then WithCurrent(disk, None) else disk, Failed)
    case Done => (disk, Done)
    case Failed => (disk, Failed)
  }

  function Advanced(disk: Disk, job: Job, oks: seq<bool>): (Disk, Job) {
    if oks == [] then (disk, job)
    else
      var (d, j) := Advanced(disk, job, oks[..|oks| - 1]);
      var (next, phase) := Advance(d, j, oks[|oks| - 1]);
      (next, j.(phase := phase))
  }

  // ---- Reading ----

  datatype ReadError = Missing | Unsound | Ambiguous

  predicate Valid(receipt: Receipt) {
    receipt.runId != ""
  }

  // Store.Current.
  function Current(disk: Disk): Result<(Receipt, Name), ReadError> {
    if !disk.root.now || disk.current.now.None? then Err(Missing)
    else
      match disk.current.now.value.data
      case Index(runId, name, digest) =>
        if runId == "" then Err(Unsound)
        else if !disk.dir.now || At(disk, name).now.None? then Err(Missing)
        else
          (match At(disk, name).now.value.data
           case Record(receipt) =>
             if digest != Sha256(Record(receipt)) || !Valid(receipt) || receipt.runId != runId then Err(Unsound)
             else Ok((receipt, name))
           case _ => Err(Unsound))
      case _ => Err(Unsound)
  }

  predicate IsAlphanumeric(c: char) {
    'A' <= c <= 'Z' || 'a' <= c <= 'z' || '0' <= c <= '9'
  }

  // ^[A-Za-z0-9][A-Za-z0-9_.:+@~-]{0,255}$
  predicate IsRunId(id: string) {
    && 0 < |id| <= 256 && IsAlphanumeric(id[0])
    && forall i :: 0 < i < |id| ==> IsAlphanumeric(id[i]) || id[i] in "_.:+@~-"
  }

  predicate Holds(disk: Disk, name: Name, receipt: Receipt) {
    var entry := At(disk, name).now;
    entry.Some? && entry.value.data == Record(receipt) && Valid(receipt)
  }

  ghost predicate Sound(disk: Disk, name: Name) {
    exists receipt :: Holds(disk, name, receipt)
  }

  // The one receipt recorded under the run ID, every listed file being a receipt.
  ghost predicate IsOnly(disk: Disk, listing: seq<Name>, runId: string, receipt: Receipt, name: Name) {
    && (forall other :: other in listing ==> Sound(disk, other))
    && name in listing && Holds(disk, name, receipt) && receipt.runId == runId
    && forall other, r :: other in listing && Holds(disk, other, r) && r.runId == runId ==> other == name
  }

  lemma TwoAreNotOne(disk: Disk, listing: seq<Name>, runId: string, a: (Receipt, Name), b: (Receipt, Name))
    requires a.1 in listing && b.1 in listing && a.1 != b.1
    requires Holds(disk, a.1, a.0) && Holds(disk, b.1, b.0) && a.0.runId == b.0.runId == runId
    ensures !exists receipt, name :: IsOnly(disk, listing, runId, receipt, name)
  {
  }

  // ---- The code ----

  datatype PublishError = Refused | Exists | Failure

  class Store {
    var disk: Disk
    // Where the call in progress stands: its start, the operation that comes next, and the results so far.
    ghost var origin: (Disk, Job)
    ghost var job: Job
    ghost var oks: seq<bool>

    constructor (disk: Disk)
      ensures this.disk == disk
    {
      this.disk := disk;
    }

    ghost predicate Tracked()
      reads this
    {
      (disk, job) == Advanced(origin.0, origin.1, oks)
    }

    twostate predicate Went(ok: bool)
      reads this
    {
      && Tracked()
      && origin == old(origin)
      && (disk, job.phase) == Advance(old(disk), old(job), ok)
      && job == old(job).(phase := job.phase)
      && oks == old(oks) + [ok]
    }

    // An operation that changes no entry of the modelled directories.
    method Attempt() returns (ok: bool)
      requires Tracked()
      requires job.phase.SecureRoot? || job.phase.SecureDir? || job.phase.Stage? || job.phase.Unlink?
      modifies this`job, this`oks
      ensures Went(ok)
    {
      ok := *;
      Step(disk, ok);
    }

    ghost method Step(before: Disk, ok: bool)
      requires (before, job) == Advanced(origin.0, origin.1, oks)
      requires disk == Advance(before, job, ok).0
      modifies this`job, this`oks
      ensures Tracked() && oks == old(oks) + [ok]
      ensures job == old(job).(phase := Advance(before, old(job), ok).1)
    {
      hide Advance;
      ghost var next := oks + [ok];
      assert next[..|next| - 1] == oks;
      job := job.(phase := Advance(before, job, ok).1);
      oks := next;
    }

    method MkdirRoot() returns (ok: bool)
      requires Tracked() && job.phase == MakeRoot
      modifies this`disk, this`job, this`oks
      ensures Went(ok)
    {
      ghost var before := disk;
      ok := *;
      if ok && !disk.root.now {
        disk := Disk(disk.root.Put(true), Slot(false, {false}), ABSENT, map[]);
      }
      Step(before, ok);
    }

    method MkdirReceipts() returns (ok: bool)
      requires Tracked() && job.phase == MakeDir
      modifies this`disk, this`job, this`oks
      ensures Went(ok)
    {
      ghost var before := disk;
      ok := *;
      if ok && !disk.dir.now {
        disk := disk.(dir := disk.dir.Put(true), receipts := map[]);
      }
      Step(before, ok);
    }

    method EnsureRoot() returns (ok: bool)
      requires Tracked() && job.phase == MakeRoot
      modifies this`disk, this`job, this`oks
      ensures Tracked() && origin == old(origin) && job == old(job).(phase := if ok then MakeDir else Failed)
    {
      ok := MkdirRoot();
      if ok { ok := Attempt(); }
    }

    method EnsureReceipts() returns (ok: bool)
      requires Tracked() && job.phase == MakeDir
      modifies this`disk, this`job, this`oks
      ensures Tracked() && origin == old(origin)
      ensures job == old(job).(phase := if ok then Stage(ForReceipt, Create, EMPTY) else Failed)
    {
      ok := MkdirReceipts();
      if ok { ok := Attempt(); }
    }

    // stage: a temporary file with the data, on disk before its name is used.
    method WriteTemp(ghost purpose: Purpose, data: Data) returns (temp: Option<File>)
      requires Tracked() && job.phase == Stage(purpose, Create, EMPTY) && data == job.DataFor(purpose)
      modifies this`job, this`oks
      ensures Tracked() && origin == old(origin)
      ensures temp.Some? ==> temp.value == File(data, true)
      ensures job == old(job).(phase := if temp.Some? then Staged(purpose, temp.value) else Unstaged(purpose))
    {
      var ok := Attempt();
      if !ok { return None; }
      var file := EMPTY;
      ok := Attempt();
      if !ok { return None; }
      file := file.(data := data);
      ok := Attempt();
      if !ok { return None; }
      file := file.(synced := true);
      ok := Attempt();
      if !ok { return None; }
      return Some(file);
    }

    method LinkTemp(temp: File, name: Name) returns (ok: bool, taken: bool)
      requires Tracked() && job.phase == Link(temp) && job.name == name
      modifies this`disk, this`job, this`oks
      ensures Went(ok)
      ensures taken == At(old(disk), name).now.Some?
    {
      ghost var before := disk;
      ok := *;
      taken := At(disk, name).now.Some?;
      if ok && !taken {
        disk := disk.(receipts := disk.receipts[name := At(disk, name).Put(Some(temp))]);
      }
      Step(before, ok);
    }

    method SyncReceiptsDir() returns (ok: bool)
      requires Tracked() && job.phase == SyncReceipts
      modifies this`disk, this`job, this`oks
      ensures Went(ok)
    {
      ghost var before := disk;
      ok := *;
      if ok {
        disk := disk.(receipts := map name | name in disk.receipts :: disk.receipts[name].Flushed());
      }
      Step(before, ok);
    }

    method PublishReceipt(name: Name, data: Data) returns (error: Option<PublishError>)
      requires Tracked() && job.phase == Stage(ForReceipt, Create, EMPTY) && job.name == name && data == job.Record()
      modifies this`disk, this`job, this`oks
      ensures Tracked() && origin == old(origin)
      ensures job == old(job).(phase := if error.None? then ReadPrevious else Failed)
      ensures error.None? ==> At(old(disk), name).now.None?
      ensures error == Some(Exists) ==> disk == old(disk) && At(disk, name).now.Some?
    {
      hide Advanced, WithRoot, WithDir, WithLink, WithReceiptsSynced, WithCurrent, WithRootSynced;
      var temp := WriteTemp(ForReceipt, data);
      if temp.None? { return Some(Failure); }
      var ok, taken := LinkTemp(temp.value, name);
      if taken { return Some(Exists); }
      if !ok { return Some(Failure); }
      ok := Attempt();
      if !ok { return Some(Failure); }
      ok := SyncReceiptsDir();
      if !ok { return Some(Failure); }
      return None;
    }

    method ReadIndex() returns (ok: bool, previous: Option<Data>)
      requires Tracked() && job.phase == ReadPrevious
      modifies this`job, this`oks
      ensures Went(ok)
      ensures previous == if disk.current.now.Some? then Some(disk.current.now.value.data) else None
    {
      ok := *;
      previous := None;
      if disk.current.now.Some? { previous := Some(disk.current.now.value.data); }
      Step(disk, ok);
    }

    method RenameToCurrent(temp: File) returns (ok: bool)
      requires Tracked()
      requires job.phase == Restore(temp) || (job.phase.Rename? && job.phase.temp == temp)
      modifies this`disk, this`job, this`oks
      ensures Went(ok)
    {
      ghost var before := disk;
      ok := *;
      if ok { disk := disk.(current := disk.current.Put(Some(temp))); }
      Step(before, ok);
    }

    method SyncRootDir() returns (ok: bool)
      requires Tracked() && (job.phase.SyncRoot? || job.phase == SyncRestored)
      modifies this`disk, this`job, this`oks
      ensures Went(ok)
    {
      ghost var before := disk;
      ok := *;
      if ok { disk := disk.(dir := disk.dir.Flushed(), current := disk.current.Flushed()); }
      Step(before, ok);
    }

    method RemoveIndex() returns (ok: bool)
      requires Tracked() && job.phase == RemoveCurrent
      modifies this`disk, this`job, this`oks
      ensures Went(ok)
    {
      ghost var before := disk;
      ok := *;
      if ok { disk := disk.(current := disk.current.Put(None)); }
      Step(before, ok);
    }

    method UpdateCurrent(receipt: Receipt, name: Name) returns (ok: bool)
      requires Tracked() && job == Job(receipt, name, ReadPrevious)
      modifies this`disk, this`job, this`oks
      ensures Tracked() && origin == old(origin)
      ensures job == Job(receipt, name, if ok then Done else Failed)
    {
      hide Advanced, WithRoot, WithDir, WithLink, WithReceiptsSynced, WithCurrent, WithRootSynced, At;
      var data := Index(receipt.runId, name, Sha256(Record(receipt)));
      var previous;
      ok, previous := ReadIndex();
      if !ok { return; }
      var temp := WriteTemp(ForCurrent(previous), data);
      if temp.None? { return false; }
      ok := RenameToCurrent(temp.value);
      if !ok { return; }
      ok := SyncRootDir();
      if !ok { RollbackCurrent(previous); }
    }

    method RollbackCurrent(previous: Option<Data>)
      requires Tracked()
      requires job.phase == if previous.Some? then Stage(ForRollback(previous.value), Create, EMPTY) else RemoveCurrent
      modifies this`disk, this`job, this`oks
      ensures Tracked() && origin == old(origin) && job == old(job).(phase := Failed)
    {
      hide Advanced, WithRoot, WithDir, WithLink, WithReceiptsSynced, WithCurrent, WithRootSynced, At;
      if previous.Some? {
        var temp := WriteTemp(ForRollback(previous.value), previous.value);
        if temp.Some? {
          var ok := RenameToCurrent(temp.value);
          if ok {
            var _ := SyncRootDir();
            return;
          }
        }
      }
      var _ := RemoveIndex();
    }

    // Whatever fails on the way, the operations issued are those of the protocol, in its order; a receipt
    // that is not valid touches nothing.
    method Publish(receipt: Receipt, name: Name) returns (result: Result<Name, PublishError>)
      modifies this
      ensures !Valid(receipt) ==> result == Err(Refused) && disk == old(disk)
      ensures Valid(receipt) ==>
        && (disk, job) == Advanced(old(disk), Job(receipt, name, MakeRoot), oks)
        && (if result.Ok? then job.phase == Done && result.value == name else job.phase == Failed)
      ensures result == Err(Exists) ==> At(disk, name).now.Some?
    {
      if !Valid(receipt) { return Err(Refused); }
      job, oks := Job(receipt, name, MakeRoot), [];
      origin := (disk, job);
      var ok := EnsureRoot();
      if !ok { return Err(Failure); }
      ok := EnsureReceipts();
      if !ok { return Err(Failure); }
      var error := PublishReceipt(name, Record(receipt));
      if error.Some? { return Err(error.value); }
      ok := UpdateCurrent(receipt, name);
      if !ok { return Err(Failure); }
      return Ok(name);
    }

    // Store.Read: the order of the directory listing decides nothing when the run ID is found.
    method Read(runId: string, listing: seq<Name>) returns (result: Result<(Receipt, Name), ReadError>)
      requires NoDuplicates(listing)
      ensures result.Ok? ==> IsRunId(runId) && disk.root.now && disk.dir.now
      ensures result.Ok? ==> IsOnly(disk, listing, runId, result.value.0, result.value.1)
      ensures IsRunId(runId) && disk.root.now && disk.dir.now ==>
        (result.Ok? <==> exists receipt, name :: IsOnly(disk, listing, runId, receipt, name))
      ensures IsRunId(runId) && disk.root.now && disk.dir.now && result == Err(Missing) ==>
        || (exists other :: other in listing && At(disk, other).now.None?)
        || (forall name, r :: name in listing && Holds(disk, name, r) ==> r.runId != runId)
      ensures result == Err(Ambiguous) ==> exists a, b, r, t :: (
        a in listing && b in listing && a != b && Holds(disk, a, r) && Holds(disk, b, t) && r.runId == t.runId == runId)
      ensures result == Err(Unsound) ==>
        !IsRunId(runId) || exists other :: other in listing && At(disk, other).now.Some? && !Sound(disk, other)
    {
      if !IsRunId(runId) { return Err(Unsound); }
      if !disk.root.now || !disk.dir.now { return Err(Missing); }
      var found: Option<(Receipt, Name)> := None;
      for i := 0 to |listing|
        invariant forall j :: 0 <= j < i ==> Sound(disk, listing[j])
        invariant found.Some? ==> found.value.1 in listing[..i] && Holds(disk, found.value.1, found.value.0)
        invariant found.Some? ==> found.value.0.runId == runId
        invariant forall j, r :: 0 <= j < i && Holds(disk, listing[j], r) && r.runId == runId ==>
          found.Some? && found.value.1 == listing[j]
      {
        var name := listing[i];
        assert name in listing;
        var entry := At(disk, name).now;
        if entry.None? { return Err(Missing); }
        if !entry.value.data.Record? || !Valid(entry.value.data.receipt) { return Err(Unsound); }
        var receipt := entry.value.data.receipt;
        assert Holds(disk, name, receipt);
        if receipt.runId != runId { continue; }
        if found.Some? {
          TwoAreNotOne(disk, listing, runId, found.value, (receipt, name));
          return Err(Ambiguous);
        }
        found := Some((receipt, name));
      }
      if found.None? {
        assert forall name, r :: name in listing && Holds(disk, name, r) ==> r.runId != runId;
        return Err(Missing);
      }
      assert IsOnly(disk, listing, runId, found.value.0, found.value.1);
      return Ok(found.value);
    }
  }
}
