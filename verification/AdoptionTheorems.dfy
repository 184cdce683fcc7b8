// Adoption under any interleaving of callers and any crash (internal/adopt/adopt.go,
// internal/platform/cachyos/desktop_runtime.go).
module AdoptionTheorems {
  import opened Text
  import opened Adoption

  // ---- The invariant ----

  // The record tells the truth about a backup that no crash can touch.
  ghost predicate Vouches(disk: Disk, record: Record) {
    && disk.backup.Present? && disk.backup.durable && disk.backup.value.synced
    && record.digest == Sha256(disk.backup.value.content)
    && record.firstReceiptId != ""
  }

  ghost predicate TargetIsWhole(disk: Disk) {
    && disk.target.now in disk.target.disk
    && forall value :: value in disk.target.disk && value.Some? ==> value.value.synced
  }

  ghost predicate RecordIsLinked(disk: Disk, linked: set<Record>) {
    disk.record.Present? ==> disk.adoptions.Present? && disk.record.value.synced && disk.record.value.record in linked
  }

  ghost predicate OneRecord(disk: Disk, linked: set<Record>) {
    && (forall record :: record in linked ==> Vouches(disk, record))
    && forall a, b :: a in linked && b in linked ==> a == b
  }

  ghost predicate Sane(disk: Disk, linked: set<Record>) {
    TargetIsWhole(disk) && RecordIsLinked(disk, linked) && OneRecord(disk, linked)
  }

  // The call that created the backup and has not linked the record yet.
  predicate Owns(job: Job) {
    || job.phase.Copy? || job.phase.SyncBackup? || job.phase.CloseBackup? || job.phase.SyncParent?
    || job.phase.RemakeDirs? || job.phase.WriteRecord? || job.phase.SyncRecord? || job.phase.Link?
  }

  ghost predicate BackupIs(disk: Disk, content: string) {
    disk.backup.Present? && disk.backup.value.content == content
  }

  ghost predicate Ready(disk: Disk, linked: set<Record>, job: Job) {
    && (job.adopted.Some? ==> job.adopted.value in linked)
    && match job.phase
       case Open(_) => job.receiptId != ""
       case Create(_) => job.receiptId != ""
       case Copy(source) => job.receiptId != "" && disk.backup.Present?
       case SyncBackup(source) => job.receiptId != "" && BackupIs(disk, source.content)
       case CloseBackup(source) => job.receiptId != "" && BackupIs(disk, source.content) && disk.backup.value.synced
       case SyncParent(source) => job.receiptId != "" && BackupIs(disk, source.content) && disk.backup.value.synced
       case RemakeDirs(record) => Vouches(disk, record)
       case WriteRecord(record) => Vouches(disk, record) && disk.adoptions.Present?
       case SyncRecord(temp) => Vouches(disk, temp.record) && disk.adoptions.Present?
       case Link(temp) => Vouches(disk, temp.record) && disk.adoptions.Present? && temp.synced
       case Unlink(record) => record in linked
       case SyncAdoptions(record) => record in linked
       case Replace(candidate) => candidate.synced
       case _ => true
  }

  ghost predicate Safe(s: System) {
    && Sane(s.disk, s.linked)
    && s.returned <= s.linked
    && (forall p :: p in s.jobs ==> Ready(s.disk, s.linked, s.jobs[p]))
    && (forall p :: p in s.jobs && Owns(s.jobs[p]) ==> s.linked == {})
    && forall p, q :: p in s.jobs && q in s.jobs && Owns(s.jobs[p]) && Owns(s.jobs[q]) ==> p == q
  }

  ghost function LinkedBy(job: Job, next: Job): set<Record> {
    if job.phase.Link? && next.phase.Unlink? then {job.phase.temp.record} else {}
  }

  // ---- One operation ----

  // With the backup out of its owner's hands, what a record vouches for stays.
  lemma VouchedStays(disk: Disk, job: Job, reply: Reply, record: Record)
    requires Vouches(disk, record) && !(job.phase.Copy? || job.phase.SyncBackup?)
    ensures Vouches(Advance(disk, job, reply).0, record)
  {
  }

  lemma StepIsSane(disk: Disk, linked: set<Record>, job: Job, reply: Reply)
    requires Sane(disk, linked) && Ready(disk, linked, job) && (Owns(job) ==> linked == {})
    ensures var (after, next) := Advance(disk, job, reply);
            Sane(after, linked + LinkedBy(job, next))
  {
    hide LoadRecord;
    var (after, next) := Advance(disk, job, reply);
    var grown := linked + LinkedBy(job, next);
    forall record | record in grown
      ensures Vouches(after, record)
    {
      if record in linked { VouchedStays(disk, job, reply, record); }
    }
  }

  lemma StepIsReady(disk: Disk, linked: set<Record>, job: Job, reply: Reply)
    requires Sane(disk, linked) && Ready(disk, linked, job)
    ensures var (after, next) := Advance(disk, job, reply);
            Ready(after, linked + LinkedBy(job, next), next)
  {
    hide Sane, Ready, Advance;
    if Owns(job) { OwnerIsReady(disk, linked, job, reply); } else { OtherIsReady(disk, linked, job, reply); }
  }

  lemma OwnerIsReady(disk: Disk, linked: set<Record>, job: Job, reply: Reply)
    requires Ready(disk, linked, job) && Owns(job)
    ensures var (after, next) := Advance(disk, job, reply);
            Ready(after, linked + LinkedBy(job, next), next)
  {
    hide LoadRecord;
  }

  lemma OtherIsReady(disk: Disk, linked: set<Record>, job: Job, reply: Reply)
    requires Sane(disk, linked) && Ready(disk, linked, job) && !Owns(job)
    ensures var (after, next) := Advance(disk, job, reply);
            Ready(after, linked + LinkedBy(job, next), next)
  {
    hide LoadRecord, Sane;
    LoadedIsLinked(disk, linked);
  }

  lemma LoadedIsLinked(disk: Disk, linked: set<Record>)
    requires Sane(disk, linked)
    ensures LoadRecord(disk).Loaded? ==> LoadRecord(disk).record in linked
    ensures LoadRecord(disk) != Broken
    ensures LoadRecord(disk).NotFound? <==> disk.record.Absent?
  {
  }

  // What another call has achieved is not disturbed.
  lemma OthersStayReady(disk: Disk, linked: set<Record>, job: Job, reply: Reply, other: Job)
    requires Ready(disk, linked, job) && Ready(disk, linked, other) && !(Owns(job) && Owns(other))
    ensures Ready(Advance(disk, job, reply).0, linked + LinkedBy(job, Advance(disk, job, reply).1), other)
  {
    hide LoadRecord;
    var after := Advance(disk, job, reply).0;
    if Owns(other) {
      OwnedBackupStays(disk, job, reply);
    }
  }

  lemma OwnedBackupStays(disk: Disk, job: Job, reply: Reply)
    requires !Owns(job) && disk.backup.Present?
    ensures var after := Advance(disk, job, reply).0;
            && after.backup.Present? && after.backup.value == disk.backup.value
            && (disk.backup.durable ==> after.backup.durable)
            && (disk.adoptions.Present? ==> after.adoptions.Present?)
  {
  }

  // A backup is created only where there is none; so there is one owner, and none once a record exists.
  lemma OwnersAreAlone(disk: Disk, linked: set<Record>, job: Job, reply: Reply)
    requires Sane(disk, linked) && Ready(disk, linked, job) && (Owns(job) ==> linked == {})
    ensures var (after, next) := Advance(disk, job, reply);
            && (Owns(next) && !Owns(job) ==> disk.backup.Absent?)
            && (Owns(next) ==> linked + LinkedBy(job, next) == {})
            && (LinkedBy(job, next) != {} ==> Owns(job) && !Owns(next))
  {
    hide LoadRecord;
  }

  lemma {:induction false} GoIsSafe(s: System, caller: nat, reply: Reply)
    requires Safe(s) && caller in s.jobs
    ensures Safe(Next(s, Go(caller, reply)))
  {
    hide Sane, Ready, Advance, Owns;
    var job := s.jobs[caller];
    var (after, next) := Advance(s.disk, job, reply);
    var t := Next(s, Go(caller, reply));
    StepIsSane(s.disk, s.linked, job, reply);
    StepIsReady(s.disk, s.linked, job, reply);
    OwnersAreAlone(s.disk, s.linked, job, reply);
    AdoptedIsLinked(after, t.linked, next);
    forall p | p in s.jobs && p != caller
      ensures Ready(after, t.linked, s.jobs[p])
      ensures Owns(s.jobs[p]) ==> t.linked == {} && !Owns(next)
    {
      OthersStayReady(s.disk, s.linked, job, reply, s.jobs[p]);
      if Owns(s.jobs[p]) {
        OwnerHasBackup(s.disk, s.linked, s.jobs[p]);
        assert !Owns(job);
      }
    }
  }

  lemma AdoptedIsLinked(disk: Disk, linked: set<Record>, job: Job)
    requires Ready(disk, linked, job)
    ensures job.adopted.Some? ==> job.adopted.value in linked
  {
  }

  lemma OwnerHasBackup(disk: Disk, linked: set<Record>, job: Job)
    requires Ready(disk, linked, job) && Owns(job)
    ensures disk.backup.Present?
  {
  }

  lemma CrashIsSane(disk: Disk, after: Disk, linked: set<Record>)
    requires Sane(disk, linked) && MayFollow(disk, after)
    ensures Sane(after, linked)
  {
    forall record | record in linked
      ensures Vouches(after, record)
    {
      assert Vouches(disk, record);
    }
  }

  lemma {:induction false} StepIsSafe(s: System, action: Action)
    requires Safe(s)
    ensures Safe(Next(s, action))
  {
    hide Sane, MayFollow;
    match action
    case StartAdopt(caller, receiptId) =>
    case StartPublish(caller, receiptId, replacement) =>
    case Go(caller, reply) => if caller in s.jobs { GoIsSafe(s, caller, reply); }
    case Crash(after) => if MayFollow(s.disk, after) { CrashIsSane(s.disk, after, s.linked); }
  }

  // ---- Main results ----

  // However callers interleave and whenever the machine crashes: at most one record is ever linked, every
  // successful caller gets it, and it gives the digest of a backup that is durable from then on.
  lemma {:induction false} RunIsSafe(s: System, actions: seq<Action>)
    requires Safe(s)
    ensures Safe(After(s, actions))
  {
    hide Safe, Next;
    if actions != [] {
      RunIsSafe(s, actions[..|actions| - 1]);
      StepIsSafe(After(s, actions[..|actions| - 1]), actions[|actions| - 1]);
    }
  }

  lemma OneRecordForAll(s: System, actions: seq<Action>, a: Record, b: Record)
    requires Safe(s)
    requires a in After(s, actions).returned && b in After(s, actions).linked
    ensures a == b && Vouches(After(s, actions).disk, a)
    ensures After(s, actions).disk.record.Present? ==> After(s, actions).disk.record.value == RecordFile(a, true)
  {
    hide After, Next;
    RunIsSafe(s, actions);
  }

  ghost predicate Complete(disk: Disk) {
    disk.backup.Present? && disk.backup.durable && disk.backup.value.synced
  }

  // Nothing that follows, crashes included, changes or removes a durable backup that is nobody's work in
  // hand, and a record once linked is replaced by no other.
  lemma {:induction false} BackupNeverChanges(s: System, actions: seq<Action>)
    requires Safe(s) && Complete(s.disk)
    requires forall p :: p in s.jobs ==> !Owns(s.jobs[p])
    ensures After(s, actions).disk.backup == s.disk.backup
    ensures forall p :: p in After(s, actions).jobs ==> !Owns(After(s, actions).jobs[p])
    ensures After(s, actions).linked == s.linked
  {
    hide Safe, Advance, MayFollow, Owns;
    if actions != [] {
      var t := After(s, actions[..|actions| - 1]);
      var action := actions[|actions| - 1];
      BackupNeverChanges(s, actions[..|actions| - 1]);
      match action
      case StartAdopt(caller, receiptId) => NewcomersOwnNothing(receiptId, None, MakeDirs);
      case StartPublish(caller, receiptId, replacement) => NewcomersOwnNothing(receiptId, Some(replacement), Inspect);
      case Go(caller, reply) => if caller in t.jobs { DurableBackupStays(t.disk, t.jobs[caller], reply); }
      case Crash(after) => if MayFollow(t.disk, after) { DurableBackupSurvives(t.disk, after); }
    }
  }

  lemma NewcomersOwnNothing(receiptId: string, replacement: Option<File>, phase: Phase)
    requires phase == MakeDirs || phase == Inspect
    ensures !Owns(Job(receiptId, replacement, None, phase))
  {
  }

  lemma DurableBackupStays(disk: Disk, job: Job, reply: Reply)
    requires Complete(disk) && !Owns(job)
    ensures Advance(disk, job, reply).0.backup == disk.backup && !Owns(Advance(disk, job, reply).1)
    ensures !job.phase.Link?
  {
    hide LoadRecord;
  }

  lemma DurableBackupSurvives(disk: Disk, after: Disk)
    requires Complete(disk) && MayFollow(disk, after)
    ensures after.backup == disk.backup
  {
  }

  // ---- The file that was there first ----

  ghost predicate Kept(disk: Disk, original: File) {
    Complete(disk) && disk.backup.value.content == original.content
  }

  // Until a record is linked the target is the original.
  ghost predicate TargetIsAccountedFor(disk: Disk, linked: set<Record>, original: File) {
    && disk.target.now.Some?
    && (forall value :: value in disk.target.disk ==> value.Some?)
    && (linked == {} ==> disk.target.disk == {Some(original)})
    && forall record :: record in linked ==> record.digest == Sha256(original.content)
  }

  ghost predicate CarriesOriginal(disk: Disk, original: File, job: Job) {
    match job.phase
    case Create(source) => disk.backup.Absent? ==> source == original
    case Copy(source) => source.content == original.content
    case SyncBackup(source) => source.content == original.content
    case CloseBackup(source) => source.content == original.content
    case SyncParent(source) => source.content == original.content
    case RemakeDirs(record) => record.digest == Sha256(original.content)
    case WriteRecord(record) => record.digest == Sha256(original.content)
    case SyncRecord(temp) => temp.record.digest == Sha256(original.content)
    case Link(temp) => temp.record.digest == Sha256(original.content)
    case WriteCandidate => job.adopted.Some?
    case SyncCandidate(_) => job.adopted.Some?
    case Replace(_) => job.adopted.Some?
    case _ => true
  }

  ghost predicate Accounted(s: System, original: File) {
    && TargetIsAccountedFor(s.disk, s.linked, original)
    && forall p :: p in s.jobs ==> CarriesOriginal(s.disk, original, s.jobs[p])
  }

  lemma StepIsAccounted(disk: Disk, linked: set<Record>, job: Job, reply: Reply, original: File)
    requires Sane(disk, linked) && Ready(disk, linked, job)
    requires TargetIsAccountedFor(disk, linked, original) && CarriesOriginal(disk, original, job)
    ensures var (after, next) := Advance(disk, job, reply);
            TargetIsAccountedFor(after, linked + LinkedBy(job, next), original)
  {
    hide LoadRecord;
  }

  lemma NextCarriesOriginal(disk: Disk, linked: set<Record>, job: Job, reply: Reply, original: File)
    requires Sane(disk, linked) && Ready(disk, linked, job)
    requires TargetIsAccountedFor(disk, linked, original) && CarriesOriginal(disk, original, job)
    ensures var (after, next) := Advance(disk, job, reply);
            CarriesOriginal(after, original, next)
  {
    hide LoadRecord, Sane, Ready, TargetIsAccountedFor, WithAdoptions, WithParentSynced, WithTarget, WithBackup;
    TargetIsOriginal(disk, linked, original);
  }

  lemma TargetIsOriginal(disk: Disk, linked: set<Record>, original: File)
    requires Sane(disk, linked) && TargetIsAccountedFor(disk, linked, original)
    ensures disk.target.now.Some?
    ensures disk.backup.Absent? ==> disk.target.now == Some(original)
  {
    if disk.backup.Absent? {
      assert linked == {} by {
        if record :| record in linked { assert Vouches(disk, record); }
      }
    }
  }

  lemma OthersCarryOriginal(disk: Disk, job: Job, reply: Reply, other: Job, original: File)
    requires CarriesOriginal(disk, original, other)
    ensures CarriesOriginal(Advance(disk, job, reply).0, original, other)
  {
    hide LoadRecord;
  }

  lemma {:induction false} StepKeepsAccount(s: System, action: Action, original: File)
    requires Safe(s) && Accounted(s, original)
    ensures Accounted(Next(s, action), original)
  {
    hide Sane, Ready, Advance, MayFollow, CarriesOriginal, TargetIsAccountedFor, Owns;
    match action
    case StartAdopt(caller, receiptId) => NewcomersCarryOriginal(s.disk, receiptId, None, MakeDirs, original);
    case StartPublish(caller, receiptId, replacement) =>
      NewcomersCarryOriginal(s.disk, receiptId, Some(replacement), Inspect, original);
    case Go(caller, reply) =>
      if caller in s.jobs {
        StepIsAccounted(s.disk, s.linked, s.jobs[caller], reply, original);
        NextCarriesOriginal(s.disk, s.linked, s.jobs[caller], reply, original);
        forall p | p in s.jobs && p != caller
          ensures CarriesOriginal(Advance(s.disk, s.jobs[caller], reply).0, original, s.jobs[p])
        {
          OthersCarryOriginal(s.disk, s.jobs[caller], reply, s.jobs[p], original);
        }
      }
    case Crash(after) => if MayFollow(s.disk, after) { CrashIsAccounted(s.disk, s.linked, after, original); }
  }

  lemma NewcomersCarryOriginal(disk: Disk, receiptId: string, replacement: Option<File>, phase: Phase, original: File)
    requires phase == MakeDirs || phase == Inspect
    ensures CarriesOriginal(disk, original, Job(receiptId, replacement, None, phase))
  {
  }

  lemma CrashIsAccounted(disk: Disk, linked: set<Record>, after: Disk, original: File)
    requires Sane(disk, linked) && TargetIsAccountedFor(disk, linked, original) && MayFollow(disk, after)
    ensures TargetIsAccountedFor(after, linked, original)
  {
  }

  // From an existing target with no backup yet, whatever calls are made, however they interleave and
  // whenever it crashes: the target is there, whole, and it is the original unless the backup is, durably.
  lemma {:induction false} OriginalIsNeverLost(s: System, actions: seq<Action>, original: File)
    requires s.disk.target == Slot(Some(original), {Some(original)}) && original.synced
    requires s.disk.backup.Absent? && s.disk.record.Absent? && s.jobs == map[] && s.linked == s.returned == {}
    ensures var t := After(s, actions);
            && TargetIsWhole(t.disk) && t.disk.target.now.Some?
            && (Kept(t.disk, original) || t.disk.target.disk == {Some(original)})
  {
    hide Next, Advance, MayFollow, Sane;
    AccountStarts(s, original);
    AccountHolds(s, actions, original);
    var t := After(s, actions);
    SafeDisk(t);
    if record :| record in t.linked {
      assert Vouches(t.disk, record);
    }
  }

  lemma SafeDisk(s: System)
    requires Safe(s)
    ensures TargetIsWhole(s.disk) && forall record :: record in s.linked ==> Vouches(s.disk, record)
  {
  }

  lemma AccountStarts(s: System, original: File)
    requires s.disk.target == Slot(Some(original), {Some(original)}) && original.synced
    requires s.disk.backup.Absent? && s.disk.record.Absent? && s.jobs == map[] && s.linked == s.returned == {}
    ensures Safe(s) && Accounted(s, original)
  {
  }

  lemma {:induction false} AccountHolds(s: System, actions: seq<Action>, original: File)
    requires Safe(s) && Accounted(s, original)
    ensures Safe(After(s, actions)) && Accounted(After(s, actions), original)
  {
    hide Safe, Accounted, Next;
    if actions != [] {
      AccountHolds(s, actions[..|actions| - 1], original);
      StepIsSafe(After(s, actions[..|actions| - 1]), actions[|actions| - 1]);
      StepKeepsAccount(After(s, actions[..|actions| - 1]), actions[|actions| - 1], original);
    }
  }

  // ---- One publisher alone ----

  ghost predicate Alone(start: Disk, disk: Disk, job: Job, file: File) {
    && job.replacement == Some(file)
    && (job.phase.WriteCandidate? || job.phase.SyncCandidate? || job.phase.Replace? || job.phase.SyncTarget? || job.phase.Done?
        ==> (start.target.now.Some? ==> job.adopted.Some?))
    && match job.phase
       case SyncTarget => disk.target.now == Some(file.(synced := true))
       case Done => disk.target == Slot(Some(file.(synced := true)), {Some(file.(synced := true))})
       case Failed => disk.target.now == start.target.now || disk.target.now == Some(file.(synced := true))
       case SyncCandidate(candidate) => candidate == file.(synced := false) && disk.target.now == start.target.now
       case Replace(candidate) => candidate == file.(synced := true) && disk.target.now == start.target.now
       case _ => disk.target.now == start.target.now
  }

  lemma LoneStep(start: Disk, disk: Disk, job: Job, file: File, reply: Reply)
    requires Alone(start, disk, job, file)
    ensures Alone(start, Advance(disk, job, reply).0, Advance(disk, job, reply).1, file)
  {
    hide LoadRecord;
  }

  // A Publish that succeeds leaves its file as the target, durably, and has adopted what was there; one
  // that fails leaves the old target or the new one, never a mixture.
  lemma {:induction false} PublishReplacesTarget(start: Disk, receiptId: string, file: File, replies: seq<Reply>)
    ensures var (disk, job) := Advanced(start, Job(receiptId, Some(file), None, Inspect), replies);
            Alone(start, disk, job, file)
  {
    hide Advance;
    if replies == [] {
      LoneStart(start, receiptId, file);
    } else {
      PublishReplacesTarget(start, receiptId, file, replies[..|replies| - 1]);
      var (disk, job) := Advanced(start, Job(receiptId, Some(file), None, Inspect), replies[..|replies| - 1]);
      LoneStep(start, disk, job, file, replies[|replies| - 1]);
    }
  }

  lemma LoneStart(start: Disk, receiptId: string, file: File)
    ensures Alone(start, start, Job(receiptId, Some(file), None, Inspect), file)
  {
  }
}
