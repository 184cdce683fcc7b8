// Adopting a file before it is replaced for the first time (internal/adopt/adopt.go), and the publisher
// that adopts and then replaces (internal/platform/cachyos/desktop_runtime.go). One target file.
module Adoption {
  import opened Text

  // SHA-256, taken to be without collisions.
  datatype Digest = Sha256(of: string)

  datatype File = File(content: string, inode: nat, synced: bool)

  datatype Record = Record(digest: Digest, firstReceiptId: string)

  datatype RecordFile = RecordFile(record: Record, synced: bool)

  // A directory entry that is created once and never replaced.
  datatype Entry<+T> = Absent | Present(value: T, durable: bool)
  {
    function Synced(): Entry<T> {
      if Absent? then Absent else Present(value, true)
    }
  }

  // The target's entry: the file there now, and every file a crash might leave there.
  datatype Slot = Slot(now: Option<File>, disk: set<Option<File>>)

  // The target and its backup share a directory; the state root with its directory of records is one entry.
  datatype Disk = Disk(target: Slot, backup: Entry<File>, adoptions: Entry<()>, record: Entry<RecordFile>)

  // ---- File operations ----

  function WithAdoptions(disk: Disk): Disk {
    if disk.adoptions.Present? then disk else disk.(adoptions := Present((), false), record := Absent)
  }

  function WithParentSynced(disk: Disk): Disk {
    disk.(target := Slot(disk.target.now, {disk.target.now}), backup := disk.backup.Synced())
  }

  function WithBackup(disk: Disk, content: string, synced: bool): Disk
    requires disk.backup.Present?
  {
    disk.(backup := Present(disk.backup.value.(content := content, synced := synced), disk.backup.durable))
  }

  function WithTarget(disk: Disk, file: File): Disk {
    disk.(target := Slot(Some(file), disk.target.disk + {Some(file)}))
  }

  datatype Lookup = NotFound | Loaded(record: Record) | Broken

  // loadRecord and validateRecord: a record counts only if the backup has the digest it gives.
  function LoadRecord(disk: Disk): Lookup {
    if disk.adoptions.Absent? || disk.record.Absent? then NotFound
    else
      var record := disk.record.value.record;
      if record.firstReceiptId == "" || disk.backup.Absent? || Sha256(disk.backup.value.content) != record.digest then Broken
      else Loaded(record)
  }

  // ---- One call, operation by operation ----

  // The operation that comes next.
  datatype Phase =
    | Inspect
    | MakeDirs
    | SecureDirs
    | Examine
    | Load(initial: File)
    | CheckBackup(initial: File)
    | Open(initial: File)
    | Create(source: File)
    | Copy(source: File)
    | SyncBackup(source: File)
    | CloseBackup(source: File)
    | SyncParent(source: File)
    | RemakeDirs(record: Record)
    | WriteRecord(record: Record)
    | SyncRecord(temp: RecordFile)
    | Link(temp: RecordFile)
    | Reload
    | Unlink(record: Record)
    | SyncAdoptions(record: Record)
    | WriteCandidate
    | SyncCandidate(candidate: File)
    | Replace(candidate: File)
    | SyncTarget
    | Done
    | Failed

  // An Adopt alone has no replacement; a Publish has one.
  datatype Job = Job(receiptId: string, replacement: Option<File>, adopted: Option<Record>, phase: Phase)
  {
    function To(next: Phase): Job { this.(phase := next) }

    function Adopted(record: Record): Job {
      this.(adopted := Some(record), phase := if replacement.None? then Done else WriteCandidate)
    }

    function AfterLoad(lookup: Lookup, missing: Phase): Job {
      match lookup
      case Loaded(record) => Adopted(record)
      case Broken => To(Failed)
      case NotFound => To(missing)
    }
  }

  // A copy that breaks off leaves some part behind.
  datatype Reply = Works | Breaks(part: string)

  function Advance(disk: Disk, job: Job, reply: Reply): (Disk, Job) {
    var ok := reply.Works?;
    match job.phase
    case Inspect =>
      (disk, if !ok then job.To(Failed) else if disk.target.now.None? then job.To(WriteCandidate) else job.To(MakeDirs))
    case MakeDirs => if ok then (WithAdoptions(disk), job.To(SecureDirs)) else (disk, job.To(Failed))
    case SecureDirs => (disk, job.To(if ok then Examine else Failed))
    case Examine =>
      (disk, job.To(if ok && disk.target.now.Some? then Load(disk.target.now.value) else Failed))
    case Load(initial) =>
      (disk, if ok then job.AfterLoad(LoadRecord(disk), CheckBackup(initial)) else job.To(Failed))
    case CheckBackup(initial) =>
      (disk, job.To(if ok && disk.backup.Absent? && job.receiptId != "" then Open(initial) else Failed))
    case Open(initial) =>
      (disk,
       job.To(if ok && disk.target.now.Some? && disk.target.now.value.inode == initial.inode
              then Create(disk.target.now.value) else Failed))
    case Create(source) =>
      if !ok then (disk, job.To(Failed))
      else if disk.backup.Present? then (disk, job.To(Reload))
      else (disk.(backup := Present(File("", 0, false), false)), job.To(Copy(source)))
    case Copy(source) =>
      if disk.backup.Absent? then (disk, job.To(Failed))
      else if ok then (WithBackup(disk, source.content, false), job.To(SyncBackup(source)))
      else (WithBackup(disk, reply.part, false), job.To(Failed))
    case SyncBackup(source) =>
      if ok && disk.backup.Present?
      then (WithBackup(disk, disk.backup.value.content, true), job.To(CloseBackup(source)))
      else (disk, job.To(Failed))
    case CloseBackup(source) => (disk, job.To(if ok then SyncParent(source) else Failed))
    case SyncParent(source) =>
      if ok then (WithParentSynced(disk), job.To(RemakeDirs(Record(Sha256(source.content), job.receiptId))))
      else (disk, job.To(Failed))
    case RemakeDirs(record) => if ok then (WithAdoptions(disk), job.To(WriteRecord(record))) else (disk, job.To(Failed))
    case WriteRecord(record) => (disk, job.To(if ok then SyncRecord(RecordFile(record, false)) else Failed))
    case SyncRecord(temp) => (disk, job.To(if ok then Link(temp.(synced := true)) else Failed))
    case Link(temp) =>
      if !ok then (disk, job.To(Failed))
      else if disk.record.Present? then (disk, job.To(Reload))
      else (disk.(record := Present(temp, false)), job.To(Unlink(temp.record)))
    case Reload => (disk, if ok then job.AfterLoad(LoadRecord(disk), Failed) else job.To(Failed))
    case Unlink(record) => (disk, job.To(if ok then SyncAdoptions(record) else Failed))
    case SyncAdoptions(record) =>
      if ok then (disk.(record := disk.record.Synced()), job.Adopted(record)) else (disk, job.To(Failed))
    case WriteCandidate =>
      (disk, job.To(if ok && job.replacement.Some? then SyncCandidate(job.replacement.value.(synced := false)) else Failed))
    case SyncCandidate(candidate) => (disk, job.To(if ok then Replace(candidate.(synced := true)) else Failed))
    case Replace(candidate) =>
      if ok then (WithTarget(disk, candidate), job.To(SyncTarget)) else (disk, job.To(Failed))
    case SyncTarget => if ok then (WithParentSynced(disk), job.To(Done)) else (disk, job.To(Failed))
    case Done => (disk, job)
    case Failed => (disk, job)
  }

  function Advanced(disk: Disk, job: Job, replies: seq<Reply>): (Disk, Job) {
    if replies == [] then (disk, job)
    else
      var (d, j) := Advanced(disk, job, replies[..|replies| - 1]);
      Advance(d, j, replies[|replies| - 1])
  }

  // ---- Runs: any number of calls at once, and crashes ----

  // The records ever linked, and those handed to a caller, are kept for reference; crashes do not touch them.
  datatype System = System(disk: Disk, jobs: map<nat, Job>, linked: set<Record>, returned: set<Record>)

  datatype Action =
    | StartAdopt(caller: nat, receiptId: string)
    | StartPublish(caller: nat, receiptId: string, replacement: File)
    | Go(caller: nat, reply: Reply)
    | Crash(after: Disk)

  ghost predicate FileSurvives(before: File, after: File) {
    after.synced && (before.synced ==> after == before)
  }

  ghost predicate BackupSurvives(before: Entry<File>, after: Entry<File>) {
    match after
    case Absent => before.Absent? || !before.durable
    case Present(file, durable) => durable && before.Present? && FileSurvives(before.value, file)
  }

  ghost predicate RecordSurvives(before: Entry<RecordFile>, after: Entry<RecordFile>) {
    match after
    case Absent => before.Absent? || !before.durable
    case Present(file, durable) =>
      durable && file.synced && before.Present? && (before.value.synced ==> file == before.value)
  }

  ghost predicate MayFollow(disk: Disk, after: Disk) {
    && after.target.disk == {after.target.now}
    && (exists value :: value in disk.target.disk
          && (if value.None? then after.target.now.None?
              else after.target.now.Some? && FileSurvives(value.value, after.target.now.value)))
    && BackupSurvives(disk.backup, after.backup)
    && (if after.adoptions.Present? then disk.adoptions.Present? && after.adoptions.durable
        else disk.adoptions.Absent? || !disk.adoptions.durable)
    && (if after.adoptions.Present? then RecordSurvives(disk.record, after.record) else after.record.Absent?)
  }

  ghost function Next(s: System, action: Action): System {
    match action
    case StartAdopt(caller, receiptId) =>
      if caller in s.jobs then s else s.(jobs := s.jobs[caller := Job(receiptId, None, None, MakeDirs)])
    case StartPublish(caller, receiptId, replacement) =>
      if caller in s.jobs then s else s.(jobs := s.jobs[caller := Job(receiptId, Some(replacement), None, Inspect)])
    case Go(caller, reply) =>
      if caller !in s.jobs then s
      else
        var job := s.jobs[caller];
        var (disk, next) := Advance(s.disk, job, reply);
        System(disk, s.jobs[caller := next],
               s.linked + (if job.phase.Link? && next.phase.Unlink? then {job.phase.temp.record} else {}),
               s.returned + (if next.adopted.Some? then {next.adopted.value} else {}))
    case Crash(after) => if MayFollow(s.disk, after) then s.(disk := after, jobs := map[]) else s
  }

  ghost function After(s: System, actions: seq<Action>): System {
    if actions == [] then s else Next(After(s, actions[..|actions| - 1]), actions[|actions| - 1])
  }

  // ---- The code ----

  datatype AdoptError = BackupConflict | Failure

  class Store {
    var disk: Disk
    ghost var origin: (Disk, Job)
    ghost var job: Job
    ghost var replies: seq<Reply>

    constructor (disk: Disk)
      ensures this.disk == disk
    {
      this.disk := disk;
    }

    ghost predicate Tracked()
      reads this
    {
      (disk, job) == Advanced(origin.0, origin.1, replies)
    }

    twostate predicate Went(reply: Reply)
      reads this
    {
      && Tracked()
      && origin == old(origin)
      && (disk, job) == Advance(old(disk), old(job), reply)
      && replies == old(replies) + [reply]
    }

    ghost method Step(before: Disk, reply: Reply)
      requires (before, job) == Advanced(origin.0, origin.1, replies)
      requires disk == Advance(before, job, reply).0
      modifies this`job, this`replies
      ensures Tracked() && replies == old(replies) + [reply]
      ensures job == Advance(before, old(job), reply).1
    {
      hide Advance;
      ghost var next := replies + [reply];
      assert next[..|next| - 1] == replies;
      job := Advance(before, job, reply).1;
      replies := next;
    }

    // An operation that leaves the modelled entries alone.
    method Attempt() returns (ok: bool)
      requires Tracked()
      requires Advance(disk, job, Works).0 == disk && Advance(disk, job, Breaks("")).0 == disk
      modifies this`job, this`replies
      ensures Went(if ok then Works else Breaks(""))
    {
      ok := *;
      Step(disk, if ok then Works else Breaks(""));
    }

    method EnsureDirs() returns (ok: bool)
      requires Tracked() && job.phase == MakeDirs
      modifies this`disk, this`job, this`replies
      ensures Tracked() && origin == old(origin) && job == old(job).To(if ok then Examine else Failed)
    {
      ok := MakeDirectories();
      if ok { ok := Attempt(); }
    }

    method MakeDirectories() returns (ok: bool)
      requires Tracked() && (job.phase == MakeDirs || job.phase.RemakeDirs?)
      modifies this`disk, this`job, this`replies
      ensures Went(if ok then Works else Breaks(""))
    {
      ghost var before := disk;
      ok := *;
      if ok && disk.adoptions.Absent? {
        disk := disk.(adoptions := Present((), false), record := Absent);
      }
      Step(before, if ok then Works else Breaks(""));
    }

    method CreateExclusively() returns (ok: bool, taken: bool)
      requires Tracked() && job.phase.Create?
      modifies this`disk, this`job, this`replies
      ensures Went(if ok then Works else Breaks(""))
      ensures taken == old(disk).backup.Present?
    {
      ghost var before := disk;
      ok := *;
      taken := disk.backup.Present?;
      if ok && !taken { disk := disk.(backup := Present(File("", 0, false), false)); }
      Step(before, if ok then Works else Breaks(""));
    }

    method CopyToBackup(source: File) returns (ok: bool)
      requires Tracked() && job.phase == Copy(source) && disk.backup.Present?
      modifies this`disk, this`job, this`replies
      ensures exists reply :: Went(reply) && ok == reply.Works?
    {
      ghost var before := disk;
      ok := *;
      var part: string := *;
      var reply := if ok then Works else Breaks(part);
      var content := if ok then source.content else part;
      disk := disk.(backup := disk.backup.(value := disk.backup.value.(content := content, synced := false)));
      Step(before, reply);
      assert Went(reply);
    }

    method FsyncBackup() returns (ok: bool)
      requires Tracked() && job.phase.SyncBackup? && disk.backup.Present?
      modifies this`disk, this`job, this`replies
      ensures Went(if ok then Works else Breaks(""))
    {
      ghost var before := disk;
      ok := *;
      if ok { disk := disk.(backup := disk.backup.(value := disk.backup.value.(synced := true))); }
      Step(before, if ok then Works else Breaks(""));
    }

    method SyncParentDir() returns (ok: bool)
      requires Tracked() && (job.phase.SyncParent? || job.phase.SyncTarget?)
      modifies this`disk, this`job, this`replies
      ensures Went(if ok then Works else Breaks(""))
    {
      ghost var before := disk;
      ok := *;
      if ok { disk := disk.(target := Slot(disk.target.now, {disk.target.now}), backup := disk.backup.Synced()); }
      Step(before, if ok then Works else Breaks(""));
    }

    // createBackup. A file that somebody else created first is no error yet.
    method CreateBackup(initial: File) returns (ok: bool, taken: bool, digest: Digest)
      requires Tracked() && job.phase == Open(initial)
      modifies this`disk, this`job, this`replies
      ensures Tracked() && origin == old(origin)
      ensures job == old(job).To(if taken then Reload else if ok then RemakeDirs(Record(digest, job.receiptId)) else Failed)
      ensures taken ==> disk.backup.Present?
    {
      hide Advanced, WithParentSynced;
      taken, digest := false, Sha256("");
      var target := disk.target.now;
      ok := Attempt();
      if !ok || target.None? || target.value.inode != initial.inode { return false, false, digest; }
      var source := target.value;
      ok, taken := CreateExclusively();
      if !ok { return false, false, digest; }
      if taken { return false, true, digest; }
      ok := CopyToBackup(source);
      if !ok { return; }
      ok := FsyncBackup();
      if !ok { return; }
      ok := Attempt();
      if !ok { return; }
      ok := SyncParentDir();
      digest := Sha256(source.content);
    }

    method LinkRecord(temp: RecordFile) returns (ok: bool, taken: bool)
      requires Tracked() && job.phase == Link(temp)
      modifies this`disk, this`job, this`replies
      ensures Went(if ok then Works else Breaks(""))
      ensures taken == old(disk).record.Present?
    {
      ghost var before := disk;
      ok := *;
      taken := disk.record.Present?;
      if ok && !taken { disk := disk.(record := Present(temp, false)); }
      Step(before, if ok then Works else Breaks(""));
    }

    method SyncAdoptionsDir() returns (ok: bool)
      requires Tracked() && job.phase.SyncAdoptions?
      modifies this`disk, this`job, this`replies
      ensures Went(if ok then Works else Breaks(""))
    {
      ghost var before := disk;
      ok := *;
      if ok { disk := disk.(record := disk.record.Synced()); }
      Step(before, if ok then Works else Breaks(""));
    }

    method LoadAgain() returns (ok: bool, lookup: Lookup)
      requires Tracked() && job.phase == Reload
      modifies this`job, this`replies
      ensures Tracked() && origin == old(origin) && lookup == LoadRecord(disk)
      ensures job == if ok && lookup.Loaded? then old(job).Adopted(lookup.record) else old(job).To(Failed)
    {
      hide LoadRecord;
      lookup := LoadRecord(disk);
      ok := Attempt();
    }

    method PublishRecord(record: Record) returns (result: Option<Record>)
      requires Tracked() && job.phase == RemakeDirs(record)
      modifies this`disk, this`job, this`replies
      ensures Tracked() && origin == old(origin)
      ensures job == if result.Some? then old(job).Adopted(result.value) else old(job).To(Failed)
    {
      hide Advanced, WithAdoptions, LoadRecord, Job.AfterLoad;
      var ok := MakeDirectories();
      if !ok { return None; }
      ok := Attempt();
      if !ok { return None; }
      var temp := RecordFile(record, false);
      ok := Attempt();
      if !ok { return None; }
      temp := temp.(synced := true);
      var taken;
      ok, taken := LinkRecord(temp);
      if !ok { return None; }
      if taken {
        var lookup;
        ok, lookup := LoadAgain();
        return if ok && lookup.Loaded? then Some(lookup.record) else None;
      }
      ok := SettleRecord(record);
      return if ok then Some(record) else None;
    }

    method SettleRecord(record: Record) returns (ok: bool)
      requires Tracked() && job.phase == Unlink(record)
      modifies this`disk, this`job, this`replies
      ensures Tracked() && origin == old(origin)
      ensures job == if ok then old(job).Adopted(record) else old(job).To(Failed)
    {
      ok := Attempt();
      if ok { ok := SyncAdoptionsDir(); }
    }

    // Adopt after its arguments were checked; it issues the operations of the protocol, in its order.
    method Adopt(receiptId: string) returns (result: Result<Record, AdoptError>)
      requires Tracked() && job.phase == MakeDirs && job.receiptId == receiptId
      modifies this`disk, this`job, this`replies
      ensures Tracked() && origin == old(origin)
      ensures job == if result.Ok? then old(job).Adopted(result.value) else old(job).To(Failed)
      ensures result == Err(BackupConflict) ==> disk.backup.Present? && LoadRecord(disk) == NotFound
    {
      hide Advanced, WithAdoptions;
      var ok := EnsureDirs();
      if !ok { return Err(Failure); }
      var info := disk.target.now;
      ok := Attempt();
      if !ok || info.None? { return Err(Failure); }
      var lookup := LoadRecord(disk);
      ok := Attempt();
      if !ok || lookup.Broken? { return Err(Failure); }
      if lookup.Loaded? { return Ok(lookup.record); }
      result := AdoptNew(receiptId, info.value);
    }

    method AdoptNew(receiptId: string, info: File) returns (result: Result<Record, AdoptError>)
      requires Tracked() && job.phase == CheckBackup(info) && job.receiptId == receiptId && LoadRecord(disk) == NotFound
      modifies this`disk, this`job, this`replies
      ensures Tracked() && origin == old(origin)
      ensures job == if result.Ok? then old(job).Adopted(result.value) else old(job).To(Failed)
      ensures result == Err(BackupConflict) ==> disk.backup.Present? && LoadRecord(disk) == NotFound
    {
      hide Advanced, WithAdoptions;
      var conflict := disk.backup.Present?;
      var ok := Attempt();
      if ok && conflict { return Err(BackupConflict); }
      if !ok || receiptId == "" { return Err(Failure); }
      var taken, digest;
      ok, taken, digest := CreateBackup(info);
      if taken {
        var lookup;
        ok, lookup := LoadAgain();
        if ok && lookup.Loaded? { return Ok(lookup.record); }
        return Err(if ok && lookup.NotFound? then BackupConflict else Failure);
      }
      if !ok { return Err(Failure); }
      var record := PublishRecord(Record(digest, receiptId));
      if record.None? { return Err(Failure); }
      return Ok(record.value);
    }

    method RenameToTarget(candidate: File) returns (ok: bool)
      requires Tracked() && job.phase == Replace(candidate)
      modifies this`disk, this`job, this`replies
      ensures Went(if ok then Works else Breaks(""))
    {
      ghost var before := disk;
      ok := *;
      if ok { disk := disk.(target := Slot(Some(candidate), disk.target.disk + {Some(candidate)})); }
      Step(before, if ok then Works else Breaks(""));
    }

    // Publish: adopt what is there, then replace it.
    method Publish(receiptId: string, file: File) returns (ok: bool)
      modifies this
      ensures (disk, job) == Advanced(old(disk), Job(receiptId, Some(file), None, Inspect), replies)
      ensures job.phase == if ok then Done else Failed
    {
      hide Advance, WithTarget;
      job, replies := Job(receiptId, Some(file), None, Inspect), [];
      origin := (disk, job);
      assert Tracked();
      ok := PublishNow(receiptId, file);
    }

    method PublishNow(receiptId: string, file: File) returns (ok: bool)
      requires Tracked() && job == Job(receiptId, Some(file), None, Inspect)
      modifies this`disk, this`job, this`replies
      ensures Tracked() && origin == old(origin)
      ensures job.phase == if ok then Done else Failed
    {
      hide Advanced, WithTarget, WithParentSynced;
      var present := disk.target.now.Some?;
      ok := Attempt();
      if !ok { return; }
      if present {
        var record := Adopt(receiptId);
        if record.Err? { return false; }
      }
      ok := ReplaceAtomically(file);
    }

    // atomicPublishDesktopFile
    method ReplaceAtomically(file: File) returns (ok: bool)
      requires Tracked() && job.phase == WriteCandidate && job.replacement == Some(file)
      modifies this`disk, this`job, this`replies
      ensures Tracked() && origin == old(origin)
      ensures job.phase == if ok then Done else Failed
    {
      hide Advanced, WithTarget, WithParentSynced;
      var candidate := file.(synced := false);
      ok := Attempt();
      if !ok { return; }
      candidate := candidate.(synced := true);
      ok := Attempt();
      if !ok { return; }
      ok := RenameToTarget(candidate);
      if !ok { return; }
      ok := SyncParentDir();
    }
  }
}
