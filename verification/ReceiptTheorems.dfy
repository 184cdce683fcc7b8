// Crash safety of the receipt store under any interleaving of publishers (internal/receipt/store.go).
module ReceiptTheorems {
  import opened Text
  import opened ReceiptStore

  // ---- Runs ----

  // Publishers at work, each at its next operation. A crash ends them all.
  datatype System = System(disk: Disk, jobs: map<nat, Job>)

  datatype Action =
    | Start(publisher: nat, receipt: Receipt, name: Name)
    | Go(publisher: nat, ok: bool)
    | Crash(after: Disk)

  // An unsynced file may hold anything after a crash.
  ghost predicate Survives(before: Option<File>, after: Option<File>) {
    match before
    case None => after.None?
    case Some(file) => after.Some? && after.value.synced && (file.synced ==> after == before)
  }

  ghost predicate EntrySurvives(before: Entry, after: Entry) {
    after.Settled() && exists value :: value in before.disk && Survives(value, after.now)
  }

  // Every directory entry comes back, independently of the others, as one of its possible values; what is
  // in a directory that is lost is lost.
  ghost predicate MayFollow(disk: Disk, after: Disk) {
    && after.root.Settled() && after.root.now in disk.root.disk
    && after.dir.Settled() && after.dir.now in (if after.root.now then disk.dir.disk else {false})
    && (if after.root.now then EntrySurvives(disk.current, after.current) else after.current == ABSENT)
    && after.receipts.Keys == (if after.dir.now then disk.receipts.Keys else {})
    && forall name :: name in after.receipts ==> EntrySurvives(disk.receipts[name], after.receipts[name])
  }

  ghost function Next(s: System, action: Action): System {
    match action
    case Start(publisher, receipt, name) =>
      if publisher in s.jobs || !Valid(receipt) then s
      else s.(jobs := s.jobs[publisher := Job(receipt, name, MakeRoot)])
    case Go(publisher, ok) =>
      if publisher !in s.jobs then s
      else
        var (disk, phase) := Advance(s.disk, s.jobs[publisher], ok);
        System(disk, s.jobs[publisher := s.jobs[publisher].(phase := phase)])
    case Crash(after) => if MayFollow(s.disk, after) then System(after, map[]) else s
  }

  ghost function After(s: System, actions: seq<Action>): System {
    if actions == [] then s else Next(After(s, actions[..|actions| - 1]), actions[|actions| - 1])
  }

  // ---- The invariant ----

  ghost predicate Durable(disk: Disk, name: Name, data: Data) {
    At(disk, name) == Slot(Some(File(data, true)), {Some(File(data, true))})
  }

  // An index whose receipt is durable, with the digest and the run ID recorded.
  ghost predicate Backed(disk: Disk, data: Data) {
    && disk.root.now && disk.dir.now
    && data.Index? && data.digest.of.Record? && Valid(data.digest.of.receipt)
    && data.runId == data.digest.of.receipt.runId
    && Durable(disk, data.name, data.digest.of)
  }

  ghost predicate CurrentIsBacked(disk: Disk) {
    && disk.current.now in disk.current.disk
    && forall value :: value in disk.current.disk && value.Some? ==> value.value.synced && Backed(disk, value.value.data)
  }

  // A receipt's entry may be lost, but no other file may turn up in it.
  ghost predicate ReceiptsAreWhole(disk: Disk) {
    forall name :: name in disk.receipts ==>
      && disk.receipts[name].now in disk.receipts[name].disk
      && forall value :: value in disk.receipts[name].disk && value.Some? ==> value.value.synced && value == disk.receipts[name].now
  }

  ghost predicate DirectoriesNest(disk: Disk) {
    && disk.root.now in disk.root.disk && disk.dir.now in disk.dir.disk
    && (disk.dir.now ==> disk.root.now)
    && (!disk.dir.now ==> disk.receipts == map[] && disk.dir.disk == {false})
    && (!disk.root.now ==> disk.current == ABSENT)
  }

  ghost predicate Sane(disk: Disk) {
    DirectoriesNest(disk) && ReceiptsAreWhole(disk) && CurrentIsBacked(disk)
  }

  ghost predicate PreviousIsBacked(disk: Disk, previous: Option<Data>) {
    previous.Some? ==> Backed(disk, previous.value)
  }

  ghost predicate PurposeIsSound(disk: Disk, job: Job, purpose: Purpose) {
    match purpose
    case ForReceipt => disk.root.now && disk.dir.now
    case ForCurrent(previous) => Backed(disk, job.Index()) && PreviousIsBacked(disk, previous)
    case ForRollback(previous) => Backed(disk, job.Index()) && Backed(disk, previous)
  }

  // What has been done for the operation that comes next to be safe.
  ghost predicate Ready(disk: Disk, job: Job) {
    && Valid(job.receipt)
    && match job.phase
       case MakeRoot => true
       case SecureRoot => disk.root.now
       case MakeDir => disk.root.now
       case SecureDir => disk.root.now && disk.dir.now
       case Stage(purpose, progress, temp) =>
         && PurposeIsSound(disk, job, purpose)
         && (progress == Sync ==> temp == File(job.DataFor(purpose), false))
         && (progress == Close ==> temp == File(job.DataFor(purpose), true))
       case Link(temp) => disk.root.now && disk.dir.now && temp == File(job.Record(), true)
       case Unlink => disk.root.now && disk.dir.now && At(disk, job.name).now == Some(File(job.Record(), true))
       case SyncReceipts => disk.root.now && disk.dir.now && At(disk, job.name).now == Some(File(job.Record(), true))
       case ReadPrevious => Backed(disk, job.Index())
       case Rename(previous, temp) =>
         Backed(disk, job.Index()) && PreviousIsBacked(disk, previous) && temp == File(job.Index(), true)
       case SyncRoot(previous) => Backed(disk, job.Index()) && PreviousIsBacked(disk, previous)
       case Restore(temp) => temp.synced && Backed(disk, temp.data)
       case _ => true
  }

  ghost predicate Safe(s: System) {
    Sane(s.disk) && forall p :: p in s.jobs ==> Ready(s.disk, s.jobs[p])
  }

  // Directories stay, a linked receipt is never changed or replaced, what is durable stays so.
  ghost predicate Grows(before: Disk, after: Disk) {
    && (before.root.now ==> after.root.now) && (before.dir.now ==> after.dir.now)
    && (before.root == Slot(true, {true}) ==> after.root == before.root)
    && (before.dir == Slot(true, {true}) ==> after.dir == before.dir)
    && forall name :: At(before, name).now.Some? ==>
         && At(after, name).now == At(before, name).now
         && (At(before, name).Settled() ==> At(after, name) == At(before, name))
  }

  lemma BackedGrows(before: Disk, after: Disk, data: Data)
    requires Grows(before, after) && Backed(before, data)
    ensures Backed(after, data)
  {
    assert At(before, data.name).now.Some?;
  }

  lemma ReadyGrows(before: Disk, after: Disk, job: Job)
    requires Grows(before, after) && Ready(before, job)
    ensures Ready(after, job)
  {
    hide Backed, Durable;
    forall data | Backed(before, data)
      ensures Backed(after, data)
    {
      BackedGrows(before, after, data);
    }
  }

  // Each kind of change to the disk keeps it sane and only grows it.

  lemma MakingRootIsSane(disk: Disk)
    requires Sane(disk)
    ensures Sane(WithRoot(disk)) && Grows(disk, WithRoot(disk)) && WithRoot(disk).root.now
  {
  }

  lemma MakingDirIsSane(disk: Disk)
    requires Sane(disk) && disk.root.now
    ensures Sane(WithDir(disk)) && Grows(disk, WithDir(disk)) && WithDir(disk).dir.now
  {
  }

  lemma LinkingIsSane(disk: Disk, name: Name, file: File)
    requires Sane(disk) && disk.dir.now && file.synced && At(disk, name).now.None?
    ensures Sane(WithLink(disk, name, file)) && Grows(disk, WithLink(disk, name, file))
    ensures At(WithLink(disk, name, file), name).now == Some(file)
  {
    hide Backed;
    var after := WithLink(disk, name, file);
    assert forall other :: other != name ==> At(after, other) == At(disk, other);
    forall value | value in disk.current.disk && value.Some?
      ensures Backed(after, value.value.data)
    {
      BackedGrows(disk, after, value.value.data);
    }
  }

  lemma SyncingReceiptsIsSane(disk: Disk)
    requires Sane(disk)
    ensures Sane(WithReceiptsSynced(disk)) && Grows(disk, WithReceiptsSynced(disk))
    ensures forall name :: At(WithReceiptsSynced(disk), name) == At(disk, name).Flushed()
  {
    hide Backed;
    var after := WithReceiptsSynced(disk);
    assert forall name :: At(after, name) == At(disk, name).Flushed();
    forall value | value in disk.current.disk && value.Some?
      ensures Backed(after, value.value.data)
    {
      BackedGrows(disk, after, value.value.data);
    }
  }

  lemma ReplacingCurrentIsSane(disk: Disk, file: Option<File>)
    requires Sane(disk) && disk.root.now && (file.Some? ==> file.value.synced && Backed(disk, file.value.data))
    ensures Sane(WithCurrent(disk, file)) && Grows(disk, WithCurrent(disk, file))
  {
    hide Backed;
    var after := WithCurrent(disk, file);
    forall value | value in after.current.disk && value.Some?
      ensures value.value.synced && Backed(after, value.value.data)
    {
      BackedGrows(disk, after, value.value.data);
    }
  }

  lemma SyncingRootIsSane(disk: Disk)
    requires Sane(disk)
    ensures Sane(WithRootSynced(disk)) && Grows(disk, WithRootSynced(disk))
  {
    hide Backed;
    var after := WithRootSynced(disk);
    forall value | value in after.current.disk && value.Some?
      ensures value.value.synced && Backed(after, value.value.data)
    {
      BackedGrows(disk, after, value.value.data);
    }
  }

  lemma AdvanceIsSane(disk: Disk, job: Job, ok: bool)
    requires Sane(disk) && Ready(disk, job)
    ensures Sane(Advance(disk, job, ok).0) && Grows(disk, Advance(disk, job, ok).0)
  {
    hide Sane, Backed, Grows, WithRoot, WithDir, WithLink, WithReceiptsSynced, WithCurrent, WithRootSynced;
    NothingGrows(disk);
    match job.phase
    case MakeRoot => MakingRootIsSane(disk);
    case MakeDir => MakingDirIsSane(disk);
    case Link(temp) => if At(disk, job.name).now.None? { LinkingIsSane(disk, job.name, temp); }
    case SyncReceipts => SyncingReceiptsIsSane(disk);
    case Rename(_, temp) => BackedHasRoot(disk, temp.data); ReplacingCurrentIsSane(disk, Some(temp));
    case SyncRoot(_) => SyncingRootIsSane(disk);
    case Restore(temp) => BackedHasRoot(disk, temp.data); ReplacingCurrentIsSane(disk, Some(temp));
    case SyncRestored => SyncingRootIsSane(disk);
    case RemoveCurrent => RemovingCurrentIsSane(disk);
    case _ =>
  }

  lemma NothingGrows(disk: Disk)
    ensures Grows(disk, disk)
  {
  }

  lemma BackedHasRoot(disk: Disk, data: Data)
    requires Backed(disk, data)
    ensures disk.root.now
  {
  }

  lemma RemovingCurrentIsSane(disk: Disk)
    requires Sane(disk)
    ensures Sane(WithCurrent(disk, None)) && Grows(disk, WithCurrent(disk, None))
  {
    if disk.root.now { ReplacingCurrentIsSane(disk, None); }
  }

  lemma DurableIsBacked(disk: Disk, job: Job)
    requires disk.root.now && disk.dir.now && Valid(job.receipt) && Durable(disk, job.name, job.Record())
    ensures Backed(disk, job.Index())
  {
  }

  lemma AdvanceIsReady(disk: Disk, job: Job, ok: bool)
    requires Sane(disk) && Ready(disk, job)
    ensures Ready(Advance(disk, job, ok).0, job.(phase := Advance(disk, job, ok).1))
  {
    hide Backed, WithReceiptsSynced, WithCurrent, WithRootSynced;
    AdvanceIsSane(disk, job, ok);
    var after := Advance(disk, job, ok).0;
    forall data | Backed(disk, data)
      ensures Backed(after, data)
    {
      BackedGrows(disk, after, data);
    }
    if job.phase.SyncReceipts? && ok {
      SyncingReceiptsIsSane(disk);
      DurableIsBacked(after, job);
    }
  }

  // ---- Crashes ----

  // The crash keeps current.json but loses the receipts directory it points into.
  ghost predicate Orphans(after: Disk) {
    after.root.now && !after.dir.now && after.current.now.Some?
  }

  lemma DurableSurvives(disk: Disk, after: Disk, data: Data)
    requires Sane(disk) && MayFollow(disk, after) && after.dir.now && Backed(disk, data)
    ensures Backed(after, data)
  {
    var name := data.name;
    assert name in disk.receipts;
    assert name in after.receipts.Keys;
    assert EntrySurvives(disk.receipts[name], after.receipts[name]);
  }

  lemma WholeSurvives(before: Entry, after: Entry)
    requires EntrySurvives(before, after)
    ensures after.now in after.disk
    ensures forall value :: value in after.disk && value.Some? ==> value.value.synced && value == after.now
  {
  }

  // Only such a crash can harm a sane disk.
  lemma CrashIsSane(disk: Disk, after: Disk)
    requires Sane(disk) && MayFollow(disk, after) && !Orphans(after)
    ensures Sane(after)
  {
    hide Backed;
    forall name | name in after.receipts
      ensures EntrySurvives(disk.receipts[name], after.receipts[name])
    {
    }
    assert ReceiptsAreWhole(after) by {
      forall name | name in after.receipts
        ensures after.receipts[name].now in after.receipts[name].disk
        ensures forall value :: value in after.receipts[name].disk && value.Some? ==>
          value.value.synced && value == after.receipts[name].now
      {
        WholeSurvives(disk.receipts[name], after.receipts[name]);
      }
    }
    if after.root.now && after.current.now.Some? {
      var value :| value in disk.current.disk && Survives(value, after.current.now);
      assert value.Some? && value == after.current.now;
      DurableSurvives(disk, after, value.value.data);
    }
    if !after.dir.now { assert after.receipts.Keys == {} && after.receipts == map[]; }
  }

  // A crash that orphans the index is possible exactly while the index may be on disk and the receipts
  // directory's own entry, made by mkdir and synced only with the index, may not.
  lemma OrphanedExactlyWhen(disk: Disk)
    requires Sane(disk)
    ensures (exists after :: MayFollow(disk, after) && Orphans(after))
       <==> true in disk.root.disk && false in disk.dir.disk && exists value :: value in disk.current.disk && value.Some?
  {
    hide Backed;
    if exists after :: MayFollow(disk, after) && Orphans(after) {
      var after :| MayFollow(disk, after) && Orphans(after);
      var value :| value in disk.current.disk && Survives(value, after.current.now);
      assert value.Some?;
    }
    if true in disk.root.disk && false in disk.dir.disk && exists value :: value in disk.current.disk && value.Some? {
      var value :| value in disk.current.disk && value.Some?;
      var after := Disk(Slot(true, {true}), Slot(false, {false}), Slot(value, {value}), map[]);
      assert Survives(value, after.current.now);
      assert MayFollow(disk, after) && Orphans(after);
    }
  }

  // ---- Main results ----

  ghost predicate Harmless(action: Action) {
    action.Crash? ==> !Orphans(action.after)
  }

  lemma {:induction false} StepIsSafe(s: System, action: Action)
    requires Safe(s) && Harmless(action)
    ensures Safe(Next(s, action))
    ensures !action.Crash? ==> Grows(s.disk, Next(s, action).disk)
  {
    hide Sane, Ready, Grows, Advance, MayFollow;
    NothingGrows(s.disk);
    match action
    case Start(publisher, receipt, name) =>
      if Valid(receipt) { StartIsReady(s.disk, receipt, name); }
    case Crash(after) =>
      if MayFollow(s.disk, after) { CrashIsSane(s.disk, after); }
    case Go(publisher, ok) =>
      if publisher in s.jobs {
        AdvanceIsSane(s.disk, s.jobs[publisher], ok);
        AdvanceIsReady(s.disk, s.jobs[publisher], ok);
        var after := Advance(s.disk, s.jobs[publisher], ok).0;
        forall p | p in s.jobs
          ensures Ready(after, s.jobs[p])
        {
          ReadyGrows(s.disk, after, s.jobs[p]);
        }
      }
  }

  lemma StartIsReady(disk: Disk, receipt: Receipt, name: Name)
    requires Valid(receipt)
    ensures Ready(disk, Job(receipt, name, MakeRoot))
  {
  }

  // As long as no crash orphans the index, every prefix of every interleaving is safe.
  lemma {:induction false} SafeUnlessOrphaned(s: System, actions: seq<Action>)
    requires Safe(s)
    requires forall k :: 0 <= k < |actions| ==> Harmless(actions[k])
    ensures Safe(After(s, actions))
  {
    hide Safe, Next, Harmless;
    if actions != [] {
      SafeUnlessOrphaned(s, actions[..|actions| - 1]);
      StepIsSafe(After(s, actions[..|actions| - 1]), actions[|actions| - 1]);
    }
  }

  // The state directory and the receipts directory cannot be lost.
  ghost predicate DurableDirectories(disk: Disk) {
    disk.root == Slot(true, {true}) && disk.dir == Slot(true, {true})
  }

  lemma DurableStep(s: System, action: Action, name: Name, data: Data)
    requires Safe(s) && DurableDirectories(s.disk)
    ensures Safe(Next(s, action)) && DurableDirectories(Next(s, action).disk)
    ensures Durable(s.disk, name, data) ==> Durable(Next(s, action).disk, name, data)
  {
    hide Ready, Advance, CurrentIsBacked, ReceiptsAreWhole;
    match action {
      case Crash(after) =>
        if MayFollow(s.disk, after) { DirectoriesSurvive(s.disk, after, name, data); }
      case _ =>
    }
    if Harmless(action) { StepIsSafe(s, action); }
  }

  lemma DirectoriesSurvive(disk: Disk, after: Disk, name: Name, data: Data)
    requires DurableDirectories(disk) && MayFollow(disk, after)
    ensures DurableDirectories(after) && !Orphans(after)
    ensures Durable(disk, name, data) ==> Durable(after, name, data)
  {
    if Durable(disk, name, data) {
      assert name in disk.receipts;
      assert name in after.receipts.Keys;
      assert EntrySurvives(disk.receipts[name], after.receipts[name]);
    }
  }

  // From durable directories, at every prefix of every run, however publishers interleave and however
  // often it crashes: current.json on disk names a durable receipt with the digest and run ID it records,
  // the directories stay durable, and so does every durable receipt.
  lemma {:induction false} DurableStoreIsSafe(s: System, actions: seq<Action>, name: Name, data: Data)
    requires Safe(s) && DurableDirectories(s.disk)
    ensures Safe(After(s, actions)) && DurableDirectories(After(s, actions).disk)
    ensures Durable(s.disk, name, data) ==> Durable(After(s, actions).disk, name, data)
  {
    hide Safe, Next, DurableDirectories, Durable;
    if actions != [] {
      DurableStoreIsSafe(s, actions[..|actions| - 1], name, data);
      DurableStep(After(s, actions[..|actions| - 1]), actions[|actions| - 1], name, data);
    }
  }

  // Between crashes the disk only grows: directories stay and no linked receipt changes.
  lemma {:induction false} DiskGrowsBetweenCrashes(s: System, actions: seq<Action>)
    requires Safe(s)
    requires forall k :: 0 <= k < |actions| ==> !actions[k].Crash?
    ensures Grows(s.disk, After(s, actions).disk)
  {
    hide Safe, Next, Grows;
    if actions == [] {
      NothingGrows(s.disk);
    } else {
      var before := After(s, actions[..|actions| - 1]);
      DiskGrowsBetweenCrashes(s, actions[..|actions| - 1]);
      SafeUnlessOrphaned(s, actions[..|actions| - 1]);
      StepIsSafe(before, actions[|actions| - 1]);
      GrowthAddsUp(s.disk, before.disk, After(s, actions).disk);
    }
  }

  // A crash of the run after which the receipt is not there.
  ghost predicate LostAt(s: System, actions: seq<Action>, name: Name, k: nat) {
    k < |actions| && actions[k].Crash? && At(After(s, actions[..k + 1]).disk, name).now.None?
  }

  // Whatever the run, a linked receipt is what it was, unless a crash has lost it altogether: nothing
  // changes it and nothing takes its place while it is there.
  lemma {:induction false} LinkedReceiptsNeverChange(s: System, actions: seq<Action>, name: Name)
    requires Safe(s) && At(s.disk, name).now.Some?
    ensures || (Safe(After(s, actions)) && At(After(s, actions).disk, name).now == At(s.disk, name).now)
            || exists k :: LostAt(s, actions, name, k)
  {
    hide Safe, Next;
    if actions != [] {
      var rest := actions[..|actions| - 1];
      LinkedReceiptsNeverChange(s, rest, name);
      if k :| LostAt(s, rest, name, k) {
        assert rest[..k + 1] == actions[..k + 1];
        assert LostAt(s, actions, name, k);
      } else {
        var t := After(s, rest);
        ReceiptStaysOrIsLost(t, actions[|actions| - 1], name);
        assert actions[..|actions|] == actions;
        if At(Next(t, actions[|actions| - 1]).disk, name).now.None? { assert LostAt(s, actions, name, |actions| - 1); }
      }
    }
  }

  lemma ReceiptStaysOrIsLost(s: System, action: Action, name: Name)
    requires Safe(s) && At(s.disk, name).now.Some?
    ensures var t := Next(s, action);
            || (Safe(t) && At(t.disk, name).now == At(s.disk, name).now)
            || (action.Crash? && At(t.disk, name).now.None?)
  {
    hide Ready, Advance, CurrentIsBacked;
    if action.Crash? && MayFollow(s.disk, action.after) {
      var after := action.after;
      assert name in s.disk.receipts;
      if name in after.receipts { assert EntrySurvives(s.disk.receipts[name], after.receipts[name]); }
      if Orphans(after) {
        assert after.receipts.Keys == {};
      } else {
        CrashIsSane(s.disk, after);
      }
    } else if !action.Crash? {
      StepIsSafe(s, action);
    }
  }

  lemma GrowthAddsUp(a: Disk, b: Disk, c: Disk)
    requires Grows(a, b) && Grows(b, c)
    ensures Grows(a, c)
  {
  }

  // A reader of a safe store finds the receipt of the index there is, or no index; never a mismatch.
  lemma CurrentIsFoundOrMissing(s: System)
    requires Safe(s)
    ensures Current(s.disk).Ok? <==> s.disk.current.now.Some?
    ensures Current(s.disk).Err? <==> Current(s.disk) == Err(Missing)
    ensures Current(s.disk).Ok? ==>
      s.disk.current.now.value.data == Index(Current(s.disk).value.0.runId, Current(s.disk).value.1, Sha256(Record(Current(s.disk).value.0)))
  {
    if s.disk.current.now.Some? {
      assert Backed(s.disk, s.disk.current.now.value.data);
    }
  }

  // Once the directories are durable no crash orphans the index, and a settled index survives them all.
  lemma DurableIndexSurvives(disk: Disk, after: Disk)
    requires Sane(disk) && MayFollow(disk, after)
    requires disk.root == Slot(true, {true}) && disk.dir == Slot(true, {true})
    ensures Sane(after) && after.root == disk.root && after.dir == disk.dir
    ensures disk.current.Settled() ==> Current(after) == Current(disk)
  {
    hide Backed;
    CrashIsSane(disk, after);
    if disk.current.Settled() {
      assert Survives(disk.current.now, after.current.now);
      CurrentIsFoundOrMissing(System(disk, map[]));
      CurrentIsFoundOrMissing(System(after, map[]));
      if disk.current.now.Some? {
        assert after.current.now == disk.current.now;
      }
    }
  }

  // ---- One publisher alone ----

  // How far a lone call has come, compared with the disk it started from.
  ghost predicate Alone(start: Disk, disk: Disk, job: Job) {
    var was := if start.root.now then start.current.now else None;
    var index := Some(File(job.Index(), true));
    match job.phase
    case SyncRoot(previous) =>
      disk.current.now == index && (previous.None? <==> was.None?) && (was.Some? ==> previous == Some(was.value.data))
    case Stage(ForRollback(previous), _, _) => disk.current.now == index && was.Some? && previous == was.value.data
    case Restore(temp) => disk.current.now == index && was.Some? && temp.data == was.value.data
    case SyncRestored => was.Some? && disk.current.now.Some? && disk.current.now.value.data == was.value.data
    case RemoveCurrent => disk.current.now == index
    case Done =>
      && disk.current == Slot(index, {index})
      && disk.dir == Slot(true, {true})
    case Failed =>
      || disk.current.now == None || disk.current.now == index
      || (was.Some? && disk.current.now.Some? && disk.current.now.value.data == was.value.data)
    case Stage(ForCurrent(previous), _, _) =>
      disk.current.now == was && previous == if was.None? then None else Some(was.value.data)
    case Rename(previous, temp) =>
      disk.current.now == was && previous == if was.None? then None else Some(was.value.data)
    case MakeRoot => disk == start
    case _ => disk.current.now == was
  }

  lemma {:induction false} LoneRun(start: Disk, job: Job, oks: seq<bool>)
    requires Sane(start) && Valid(job.receipt) && job.phase == MakeRoot
    ensures var (disk, j) := Advanced(start, job, oks);
            && Sane(disk) && Ready(disk, j) && Alone(start, disk, j)
            && j.receipt == job.receipt && j.name == job.name
            && (j.phase == Done ==> Backed(disk, j.Index()))
  {
    hide Sane, Ready, Alone, Advance, Backed;
    if oks == [] {
      StartIsAlone(start, job);
    } else {
      LoneRun(start, job, oks[..|oks| - 1]);
      var (disk, j) := Advanced(start, job, oks[..|oks| - 1]);
      LoneStep(start, disk, j, oks[|oks| - 1]);
    }
  }

  lemma StartIsAlone(start: Disk, job: Job)
    requires Valid(job.receipt) && job.phase == MakeRoot
    ensures Ready(start, job) && Alone(start, start, job)
  {
  }

  lemma {:induction false} LoneStep(start: Disk, disk: Disk, job: Job, ok: bool)
    requires Sane(disk) && Ready(disk, job) && Alone(start, disk, job)
    requires job.phase == Done ==> Backed(disk, job.Index())
    ensures var (after, phase) := Advance(disk, job, ok);
            var next := job.(phase := phase);
            && Sane(after) && Ready(after, next) && Alone(start, after, next)
            && (phase == Done ==> Backed(after, next.Index()))
  {
    AdvanceIsSane(disk, job, ok);
    AdvanceIsReady(disk, job, ok);
    LoneStepIsAlone(start, disk, job, ok);
    if job.phase.SyncRoot? && ok {
      BackedGrows(disk, Advance(disk, job, ok).0, job.Index());
    }
  }

  lemma LoneStepIsAlone(start: Disk, disk: Disk, job: Job, ok: bool)
    requires Sane(disk) && Ready(disk, job) && Alone(start, disk, job)
    ensures Alone(start, Advance(disk, job, ok).0, job.(phase := Advance(disk, job, ok).1))
  {
    hide Backed;
    if job.phase.SyncRoot? { BackedHasDir(disk, job.Index()); }
  }

  lemma BackedHasDir(disk: Disk, data: Data)
    requires Backed(disk, data)
    ensures disk.dir.now
  {
  }

  // A Publish that returns success, run alone, is what Current then returns, and what it returns after
  // any crash that does not lose the whole state directory.
  lemma PublishedIsCurrent(start: Disk, receipt: Receipt, name: Name, oks: seq<bool>, after: Disk)
    requires Sane(start) && Valid(receipt)
    requires Advanced(start, Job(receipt, name, MakeRoot), oks).1.phase == Done
    ensures var disk := Advanced(start, Job(receipt, name, MakeRoot), oks).0;
            && Current(disk) == Ok((receipt, name))
            && (MayFollow(disk, after) && after.root.now ==> Sane(after) && Current(after) == Ok((receipt, name)))
  {
    hide Advance, Advanced;
    LoneRun(start, Job(receipt, name, MakeRoot), oks);
    var (disk, job) := Advanced(start, Job(receipt, name, MakeRoot), oks);
    if MayFollow(disk, after) && after.root.now {
      assert after.dir.now;
      CrashIsSane(disk, after);
      DurableSurvives(disk, after, job.Index());
      assert Survives(disk.current.now, after.current.now);
    }
  }
}
