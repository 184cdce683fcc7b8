// Particular runs of adoption: a backup without a record, a record lost in a crash, and publishers that
// find no target (internal/adopt/adopt.go, internal/platform/cachyos/desktop_runtime.go).
module AdoptionRuns {
  import opened Text
  import opened Adoption
  import opened AdoptionTheorems

  // ---- A backup without a record ----

  // No call is under way that could still link a record or replace the target.
  ghost predicate Stopped(job: Job) {
    && job.adopted.None?
    && (job.phase.Inspect? || job.phase.MakeDirs? || job.phase.SecureDirs? || job.phase.Examine? || job.phase.Load?
        || job.phase.CheckBackup? || job.phase.Open? || job.phase.Create? || job.phase.Reload? || job.phase.Failed?)
  }

  ghost predicate StrandedDisk(disk: Disk) {
    && disk.backup.Present? && disk.record.Absent?
    && TargetIsWhole(disk) && forall value :: value in disk.target.disk ==> value.Some?
  }

  ghost predicate Stranded(s: System) {
    StrandedDisk(s.disk) && forall p :: p in s.jobs ==> Stopped(s.jobs[p])
  }

  lemma StrandedStep(disk: Disk, job: Job, reply: Reply)
    requires StrandedDisk(disk) && Stopped(job)
    ensures var (after, next) := Advance(disk, job, reply);
            && after.backup == disk.backup && after.record.Absent? && after.target == disk.target
            && Stopped(next) && next.adopted.None? && LinkedBy(job, next) == {}
            && (job.phase.CheckBackup? ==> next.phase.Failed?)
  {
  }

  lemma StrandedCrash(disk: Disk, after: Disk)
    requires StrandedDisk(disk) && disk.backup.durable && MayFollow(disk, after)
    ensures StrandedDisk(after) && after.backup.durable && after.target.disk <= disk.target.disk
    ensures disk.backup.value.synced ==> after.backup == disk.backup
  {
  }

  lemma NewcomersAreStopped(receiptId: string, replacement: Option<File>, phase: Phase)
    requires phase == MakeDirs || phase == Inspect
    ensures Stopped(Job(receiptId, replacement, None, phase))
  {
  }

  lemma StrandedNext(s: System, action: Action)
    requires Stranded(s) && s.disk.backup.durable
    ensures var t := Next(s, action);
            && Stranded(t) && t.disk.backup.durable && t.returned == s.returned && t.linked == s.linked
            && t.disk.target.disk <= s.disk.target.disk
            && (s.disk.backup.value.synced ==> t.disk.backup == s.disk.backup)
  {
    hide Advance, Stopped, MayFollow;
    match action
    case StartAdopt(caller, receiptId) => NewcomersAreStopped(receiptId, None, MakeDirs);
    case StartPublish(caller, receiptId, replacement) => NewcomersAreStopped(receiptId, Some(replacement), Inspect);
    case Go(caller, reply) => if caller in s.jobs { StrandedStep(s.disk, s.jobs[caller], reply); }
    case Crash(after) => if MayFollow(s.disk, after) { StrandedCrash(s.disk, after); }
  }

  // A durable backup without a record stops every later Adopt and every Publish that would replace the
  // file: however calls interleave and however often it crashes, no caller gets a record, none is linked,
  // the backup stays, and the target is never anything it could not have been before.
  lemma {:induction false} StrandedBackupRefuses(s: System, actions: seq<Action>)
    requires Stranded(s) && s.disk.backup.durable
    ensures var t := After(s, actions);
            && Stranded(t) && t.disk.backup.durable && t.returned == s.returned && t.linked == s.linked
            && t.disk.target.disk <= s.disk.target.disk
            && (s.disk.backup.value.synced ==> t.disk.backup == s.disk.backup)
  {
    hide Stranded, Next;
    if actions != [] {
      StrandedBackupRefuses(s, actions[..|actions| - 1]);
      StrandedNext(After(s, actions[..|actions| - 1]), actions[|actions| - 1]);
    }
  }

  // ---- One call, all of whose operations work ----

  function Worked(n: nat): seq<Reply> {
    seq(n, _ => Works)
  }

  lemma OneMore(disk: Disk, job: Job, n: nat)
    ensures var (d, j) := Advanced(disk, job, Worked(n));
            Advanced(disk, job, Worked(n + 1)) == Advance(d, j, Works)
  {
    assert Worked(n + 1)[..n] == Worked(n);
  }

  lemma NoneYet(disk: Disk, job: Job)
    ensures Advanced(disk, job, Worked(0)) == (disk, job)
  {
  }

  function TargetContent(disk: Disk): string {
    if disk.target.now.Some? then disk.target.now.value.content else ""
  }

  function BackedUp(disk: Disk): Disk {
    WithParentSynced(WithAdoptions(disk).(backup := Present(File(TargetContent(disk), 0, true), false)))
  }

  function NewRecord(disk: Disk, receiptId: string): Record {
    Record(Sha256(TargetContent(disk)), receiptId)
  }

  function Recorded(disk: Disk, receiptId: string): Disk {
    BackedUp(disk).(record := Present(RecordFile(NewRecord(disk, receiptId), true), true))
  }

  predicate IsNew(disk: Disk, job: Job) {
    && disk.target.now.Some? && disk.backup.Absent? && disk.record.Absent?
    && job.receiptId != "" && job.adopted.None? && job.phase.MakeDirs?
  }

  lemma BackupIsOpened(disk: Disk, job: Job)
    requires IsNew(disk, job)
    ensures Advanced(disk, job, Worked(6)) == (WithAdoptions(disk), job.To(Create(disk.target.now.value)))
  {
    hide Advanced;
    NoneYet(disk, job);
    OneMore(disk, job, 0);
    OneMore(disk, job, 1);
    OneMore(disk, job, 2);
    OneMore(disk, job, 3);
    OneMore(disk, job, 4);
    OneMore(disk, job, 5);
  }

  lemma BackupIsMade(disk: Disk, job: Job)
    requires IsNew(disk, job)
    ensures Advanced(disk, job, Worked(11)) == (BackedUp(disk), job.To(RemakeDirs(NewRecord(disk, job.receiptId))))
  {
    hide Advanced, LoadRecord;
    BackupIsOpened(disk, job);
    OneMore(disk, job, 6);
    OneMore(disk, job, 7);
    OneMore(disk, job, 8);
    OneMore(disk, job, 9);
    OneMore(disk, job, 10);
  }

  lemma AdoptionWorks(disk: Disk, job: Job)
    requires IsNew(disk, job)
    ensures Advanced(disk, job, Worked(17)) == (Recorded(disk, job.receiptId), job.Adopted(NewRecord(disk, job.receiptId)))
  {
    hide Advanced, LoadRecord;
    BackupIsMade(disk, job);
    OneMore(disk, job, 11);
    OneMore(disk, job, 12);
    OneMore(disk, job, 13);
    OneMore(disk, job, 14);
    OneMore(disk, job, 15);
    OneMore(disk, job, 16);
  }

  // ---- Runs put together ----

  ghost function Gos(caller: nat, n: nat): seq<Action> {
    seq(n, _ => Go(caller, Works))
  }

  lemma {:induction false} GosAdvance(s: System, caller: nat, n: nat)
    requires caller in s.jobs
    ensures var (disk, job) := Advanced(s.disk, s.jobs[caller], Worked(n));
            var t := After(s, Gos(caller, n));
            && t.disk == disk && t.jobs == s.jobs[caller := job]
            && (n > 0 && job.adopted.Some? ==> job.adopted.value in t.returned)
  {
    hide Advance, Advanced;
    if n == 0 {
      NoneYet(s.disk, s.jobs[caller]);
      assert s.jobs[caller := s.jobs[caller]] == s.jobs;
    } else {
      assert Gos(caller, n)[..n - 1] == Gos(caller, n - 1);
      GosAdvance(s, caller, n - 1);
      OneMore(s.disk, s.jobs[caller], n - 1);
    }
  }

  lemma {:induction false} RunsAddUp(s: System, front: seq<Action>, rest: seq<Action>)
    ensures After(s, front + rest) == After(After(s, front), rest)
  {
    hide Next;
    if rest == [] {
      assert front + rest == front;
    } else {
      assert (front + rest)[..|front + rest| - 1] == front + rest[..|rest| - 1];
      RunsAddUp(s, front, rest[..|rest| - 1]);
    }
  }

  lemma FirstOf(s: System, action: Action)
    ensures After(s, [action]) == Next(s, action)
  {
    assert [action][..0] == [] && After(s, [action][..0]) == s;
  }

  ghost function WholeAdopt(caller: nat, receiptId: string): seq<Action> {
    [StartAdopt(caller, receiptId)] + Gos(caller, 17)
  }

  lemma WholeAdoptRun(s: System, caller: nat, receiptId: string)
    requires caller !in s.jobs && receiptId != ""
    requires s.disk.target.now.Some? && s.disk.backup.Absent? && s.disk.record.Absent?
    ensures var t := After(s, WholeAdopt(caller, receiptId));
            && t.disk == Recorded(s.disk, receiptId) && NewRecord(s.disk, receiptId) in t.returned
            && caller in t.jobs && t.jobs[caller].phase == Done
  {
    hide Advanced, Advance, Recorded;
    var action := StartAdopt(caller, receiptId);
    FirstOf(s, action);
    RunsAddUp(s, [action], Gos(caller, 17));
    GosAdvance(Next(s, action), caller, 17);
    AdoptionWorks(s.disk, Job(receiptId, None, None, MakeDirs));
  }

  // With nothing under way a backup without a record stays without one for ever, crashes or not, exactly
  // when it is durable: otherwise a crash may lose it, and the next Adopt starts afresh.
  lemma StrandedForeverExactlyWhen(s: System)
    requires Stranded(s)
    ensures (forall actions :: After(s, actions).disk.record.Absent?) <==> s.disk.backup.durable
  {
    hide After;
    if s.disk.backup.durable {
      forall actions
        ensures After(s, actions).disk.record.Absent?
      {
        StrandedBackupRefuses(s, actions);
      }
    } else {
      var adoptions := if s.disk.adoptions.Present? then Present((), true) else Absent;
      var target := s.disk.target.now;
      var after := Disk(Slot(target, {target}), Absent, adoptions, Absent);
      assert MayFollow(s.disk, after);
      var t := Next(s, Crash(after));
      var receiptId := AnyId();
      FirstOf(s, Crash(after));
      RunsAddUp(s, [Crash(after)], WholeAdopt(0, receiptId));
      WholeAdoptRun(t, 0, receiptId);
    }
  }

  lemma AnyId() returns (receiptId: string)
    ensures receiptId != ""
  {
    receiptId := "run";
  }

  // ---- A record that is lost ----

  // A crash can take the record away exactly while it, or the directory it is in, is not durable.
  lemma RecordIsLostExactlyWhen(disk: Disk, linked: set<Record>)
    requires Sane(disk, linked) && disk.record.Present?
    ensures (exists after :: MayFollow(disk, after) && after.record.Absent?)
       <==> !disk.adoptions.durable || !disk.record.durable
  {
    if !disk.adoptions.durable || !disk.record.durable {
      var target := disk.target.now;
      var adoptions := if disk.adoptions.durable then disk.adoptions else Absent;
      var after := Disk(Slot(target, {target}), disk.backup.Synced(), adoptions, Absent);
      assert Vouches(disk, disk.record.value.record);
      assert MayFollow(disk, after);
    }
  }

  // The directory of records is new: nothing syncs its own entry, so a crash after an Adopt that has
  // returned its record may lose it, and from then on the backup refuses every call, whatever happens.
  lemma AdoptedThenRefused(s: System, caller: nat, receiptId: string, actions: seq<Action>) returns (after: Disk)
    requires caller !in s.jobs && receiptId != "" && TargetIsWhole(s.disk)
    requires s.disk.target.now.Some? && s.disk.backup.Absent? && s.disk.record.Absent? && !s.disk.adoptions.Present?
    ensures var t := After(s, WholeAdopt(caller, receiptId));
            var v := After(Next(t, Crash(after)), actions);
            && NewRecord(s.disk, receiptId) in t.returned && caller in t.jobs && t.jobs[caller].phase == Done
            && LoadRecord(t.disk) == Loaded(NewRecord(s.disk, receiptId))
            && MayFollow(t.disk, after)
            && v.returned == t.returned && v.linked == t.linked && v.disk.record.Absent?
            && v.disk.backup == t.disk.backup && v.disk.target.disk == {s.disk.target.now}
  {
    hide After, Advanced, Advance;
    WholeAdoptRun(s, caller, receiptId);
    var t := After(s, WholeAdopt(caller, receiptId));
    after := t.disk.(adoptions := Absent, record := Absent);
    assert MayFollow(t.disk, after);
    var u := Next(t, Crash(after));
    StrandedBackupRefuses(u, actions);
    StaysThatOne(After(u, actions).disk, s.disk.target.now);
  }

  lemma StaysThatOne(disk: Disk, value: Option<File>)
    requires TargetIsWhole(disk) && disk.target.disk <= {value}
    ensures disk.target.disk == {value}
  {
  }

  // A record counts exactly if it is there, names a receipt, and the backup has the digest it gives.
  lemma RecordCountsExactlyWhen(disk: Disk, record: Record)
    ensures LoadRecord(disk) == Loaded(record) <==>
      && disk.adoptions.Present? && disk.record.Present? && disk.record.value.record == record
      && record.firstReceiptId != ""
      && disk.backup.Present? && record.digest == Sha256(disk.backup.value.content)
    ensures LoadRecord(disk) == NotFound <==> disk.adoptions.Absent? || disk.record.Absent?
  {
  }

  // The backup is gone or is not what the record says.
  ghost predicate Damaged(disk: Disk) {
    && disk.adoptions.Present? && disk.record.Present?
    && (disk.backup.Absent? || disk.record.value.record.digest != Sha256(disk.backup.value.content))
  }

  ghost predicate NotAdopted(start: Disk, disk: Disk, job: Job) {
    && disk == start && job.adopted.None?
    && (job.phase.Inspect? || job.phase.MakeDirs? || job.phase.SecureDirs? || job.phase.Examine? || job.phase.Load? || job.phase.Failed?)
  }

  lemma DamagedStep(start: Disk, disk: Disk, job: Job, reply: Reply)
    requires Damaged(start) && start.target.now.Some? && NotAdopted(start, disk, job)
    ensures NotAdopted(start, Advance(disk, job, reply).0, Advance(disk, job, reply).1)
  {
    RecordCountsExactlyWhen(disk, disk.record.value.record);
  }

  // With a backup that is damaged no Adopt gets a record, and no Publish touches the target: whatever
  // works or fails, the call changes nothing and never gets past loading the record.
  lemma {:induction false} DamagedBackupRefuses(disk: Disk, job: Job, replies: seq<Reply>)
    requires Damaged(disk) && disk.target.now.Some? && job.adopted.None? && (job.phase == MakeDirs || job.phase == Inspect)
    ensures NotAdopted(disk, Advanced(disk, job, replies).0, Advanced(disk, job, replies).1)
  {
    hide Advance, Damaged;
    if replies != [] {
      DamagedBackupRefuses(disk, job, replies[..|replies| - 1]);
      var (d, j) := Advanced(disk, job, replies[..|replies| - 1]);
      DamagedStep(disk, d, j, replies[|replies| - 1]);
    }
  }

  // ---- Publishers that find no target ----

  // A Publish of the run brought this file.
  ghost predicate Published(actions: seq<Action>, file: File) {
    exists k :: 0 <= k < |actions| && actions[k].StartPublish? && file == actions[k].replacement.(synced := true)
  }

  ghost predicate Brings(actions: seq<Action>, job: Job) {
    && (job.replacement.Some? ==> Published(actions, job.replacement.value.(synced := true)))
    && (job.phase.SyncCandidate? ==> Published(actions, job.phase.candidate.(synced := true)))
    && (job.phase.Replace? ==> job.phase.candidate.synced && Published(actions, job.phase.candidate))
  }

  ghost predicate OldOrPublished(before: Disk, actions: seq<Action>, disk: Disk) {
    && TargetIsWhole(disk)
    && forall value :: value in disk.target.disk ==> value in before.target.disk || (value.Some? && Published(actions, value.value))
  }

  lemma PublishedStays(actions: seq<Action>, action: Action, file: File)
    requires Published(actions, file)
    ensures Published(actions + [action], file)
  {
    var k :| 0 <= k < |actions| && actions[k].StartPublish? && file == actions[k].replacement.(synced := true);
    assert (actions + [action])[k] == actions[k];
  }

  lemma BringsStays(actions: seq<Action>, action: Action, job: Job)
    requires Brings(actions, job)
    ensures Brings(actions + [action], job)
  {
    hide Published;
    forall file | Published(actions, file)
      ensures Published(actions + [action], file)
    {
      PublishedStays(actions, action, file);
    }
  }

  lemma StepBrings(actions: seq<Action>, before: Disk, disk: Disk, job: Job, reply: Reply)
    requires Brings(actions, job) && OldOrPublished(before, actions, disk)
    ensures Brings(actions, Advance(disk, job, reply).1)
    ensures OldOrPublished(before, actions, Advance(disk, job, reply).0)
  {
    hide Advance, Brings;
    StepBringsFile(actions, disk, job, reply);
    StepKeepsTargets(disk, job, reply);
    if job.phase.Replace? { CandidateIsPublished(actions, job); }
  }

  lemma StepBringsFile(actions: seq<Action>, disk: Disk, job: Job, reply: Reply)
    requires Brings(actions, job)
    ensures Brings(actions, Advance(disk, job, reply).1)
  {
    hide Published, LoadRecord, WithAdoptions, WithBackup, WithTarget, WithParentSynced;
    if job.phase.SyncCandidate? {
      var candidate := job.phase.candidate.(synced := true);
      assert candidate.(synced := true) == candidate;
    }
  }

  // Only a rename changes what the target's entry can hold, and only by its candidate.
  lemma StepKeepsTargets(disk: Disk, job: Job, reply: Reply)
    requires disk.target.now in disk.target.disk
    ensures var after := Advance(disk, job, reply).0;
            && after.target.now in after.target.disk
            && (!job.phase.Replace? ==> after.target.disk <= disk.target.disk)
            && (job.phase.Replace? ==> after.target.disk <= disk.target.disk + {Some(job.phase.candidate)})
  {
    hide LoadRecord;
  }

  lemma CandidateIsPublished(actions: seq<Action>, job: Job)
    requires Brings(actions, job) && job.phase.Replace?
    ensures job.phase.candidate.synced && Published(actions, job.phase.candidate)
  {
  }

  lemma CrashKeepsTargets(before: Disk, actions: seq<Action>, disk: Disk, after: Disk)
    requires OldOrPublished(before, actions, disk) && MayFollow(disk, after)
    ensures OldOrPublished(before, actions, after)
  {
    hide Published;
  }

  // Whatever was there at the start, a target or none: at any time, in any run and after any crash, all
  // the target's entry can hold is what it could hold at the start or the whole file of some Publish.
  lemma {:induction false} TargetIsOldOrPublished(s: System, actions: seq<Action>)
    requires TargetIsWhole(s.disk) && s.jobs == map[]
    ensures var t := After(s, actions);
            OldOrPublished(s.disk, actions, t.disk) && forall p :: p in t.jobs ==> Brings(actions, t.jobs[p])
  {
    hide Advance, MayFollow, Brings, TargetIsWhole, Published;
    if actions != [] {
      var front, action := actions[..|actions| - 1], actions[|actions| - 1];
      var t := After(s, front);
      TargetIsOldOrPublished(s, front);
      assert actions == front + [action];
      forall file | Published(front, file)
        ensures Published(actions, file)
      {
        PublishedStays(front, action, file);
      }
      forall p | p in t.jobs
        ensures Brings(actions, t.jobs[p])
      {
        BringsStays(front, action, t.jobs[p]);
      }
      match action
      case StartAdopt(caller, receiptId) => NewcomerBrings(actions, receiptId, None);
      case StartPublish(caller, receiptId, replacement) =>
        NewlyPublished(actions);
        NewcomerBrings(actions, receiptId, Some(replacement));
      case Go(caller, reply) => if caller in t.jobs { StepBrings(actions, s.disk, t.disk, t.jobs[caller], reply); }
      case Crash(after) => if MayFollow(t.disk, after) { CrashKeepsTargets(s.disk, actions, t.disk, after); }
    }
  }

  lemma NewlyPublished(actions: seq<Action>)
    requires actions != [] && actions[|actions| - 1].StartPublish?
    ensures Published(actions, actions[|actions| - 1].replacement.(synced := true))
  {
  }

  lemma NewcomerBrings(actions: seq<Action>, receiptId: string, replacement: Option<File>)
    requires replacement.Some? ==> Published(actions, replacement.value.(synced := true))
    ensures Brings(actions, Job(receiptId, replacement, None, MakeDirs))
    ensures Brings(actions, Job(receiptId, replacement, None, Inspect))
  {
  }

  lemma ReplacementWorks(disk: Disk, job: Job)
    requires job.phase.WriteCandidate? && job.replacement.Some?
    ensures var file := Some(job.replacement.value.(synced := true));
            Advanced(disk, job, Worked(4)) == (disk.(target := Slot(file, {file}), backup := disk.backup.Synced()), job.To(Done))
  {
    hide Advanced;
    NoneYet(disk, job);
    OneMore(disk, job, 0);
    OneMore(disk, job, 1);
    OneMore(disk, job, 2);
    OneMore(disk, job, 3);
  }

  // A slow publisher inspects, a quick one publishes, the slow one goes on.
  ghost function Quick(slow: nat, quick: nat, receiptId: string, first: File, second: File): seq<Action> {
    [StartPublish(slow, receiptId, second)] + Gos(slow, 1) + [StartPublish(quick, receiptId, first)] + Gos(quick, 1) + Gos(quick, 4)
  }

  // Nothing adopts what was published after a publisher has found no target: the file of a Publish that
  // has succeeded, durable as it is, is replaced without a backup.
  lemma UnadoptedIsOverwritten(s: System, slow: nat, quick: nat, receiptId: string, first: File, second: File)
    requires slow !in s.jobs && quick !in s.jobs && slow != quick
    requires s.disk.target == Slot(None, {None}) && s.disk.backup.Absent? && s.disk.record.Absent?
    ensures var t := After(s, Quick(slow, quick, receiptId, first, second));
            var v := After(s, Quick(slow, quick, receiptId, first, second) + Gos(slow, 4));
            && t.disk.target == Slot(Some(first.(synced := true)), {Some(first.(synced := true))})
            && quick in t.jobs && t.jobs[quick].phase == Done && t.jobs[quick].adopted.None?
            && v.disk.target == Slot(Some(second.(synced := true)), {Some(second.(synced := true))})
            && slow in v.jobs && v.jobs[slow].phase == Done && v.jobs[slow].adopted.None?
            && v.disk.backup.Absent? && v.disk.record.Absent?
  {
    hide After, Advanced, Advance;
    var a, b := Job(receiptId, Some(first), None, Inspect), Job(receiptId, Some(second), None, Inspect);
    var starts := [StartPublish(slow, receiptId, second)] + Gos(slow, 1);
    FindsNothing(s, slow, receiptId, second);
    var t1 := After(s, starts);
    RunsAddUp(s, starts, [StartPublish(quick, receiptId, first)] + Gos(quick, 1));
    FindsNothing(t1, quick, receiptId, first);
    var upTo := starts + ([StartPublish(quick, receiptId, first)] + Gos(quick, 1));
    var t2 := After(s, upTo);
    RunsAddUp(s, upTo, Gos(quick, 4));
    GosAdvance(t2, quick, 4);
    ReplacementWorks(t2.disk, a.To(WriteCandidate));
    assert upTo + Gos(quick, 4) == Quick(slow, quick, receiptId, first, second);
    var t3 := After(s, Quick(slow, quick, receiptId, first, second));
    RunsAddUp(s, Quick(slow, quick, receiptId, first, second), Gos(slow, 4));
    GosAdvance(t3, slow, 4);
    ReplacementWorks(t3.disk, b.To(WriteCandidate));
  }

  lemma FindsNothing(s: System, caller: nat, receiptId: string, file: File)
    requires caller !in s.jobs && s.disk.target.now.None?
    ensures var t := After(s, [StartPublish(caller, receiptId, file)] + Gos(caller, 1));
            t.disk == s.disk && t.jobs == s.jobs[caller := Job(receiptId, Some(file), None, WriteCandidate)]
  {
    hide After, Advanced;
    var job := Job(receiptId, Some(file), None, Inspect);
    FirstOf(s, StartPublish(caller, receiptId, file));
    RunsAddUp(s, [StartPublish(caller, receiptId, file)], Gos(caller, 1));
    GosAdvance(Next(s, StartPublish(caller, receiptId, file)), caller, 1);
    NoneYet(s.disk, job);
    OneMore(s.disk, job, 0);
  }
}
