// Particular runs of the receipt store: when a crash can orphan the index, and what each failed Publish
// leaves behind (internal/receipt/store.go).
module ReceiptRuns {
  import opened Text
  import opened ReceiptStore
  import opened ReceiptTheorems

  // ---- One call, all of whose operations work up to the rename of the index ----

  function Worked(n: nat): seq<bool> {
    seq(n, _ => true)
  }

  function Made(start: Disk): Disk {
    WithDir(WithRoot(start))
  }

  function Linked(start: Disk, job: Job): Disk {
    WithLink(Made(start), job.name, File(job.Record(), true))
  }

  function Recorded(start: Disk, job: Job): Disk {
    WithReceiptsSynced(Linked(start, job))
  }

  function Renamed(start: Disk, job: Job): Disk {
    WithCurrent(Recorded(start, job), Some(File(job.Index(), true)))
  }

  // The index the call found.
  function Previous(start: Disk): Option<Data> {
    var now := Made(start).current.now;
    if now.Some? then Some(now.value.data) else None
  }

  lemma OneMore(start: Disk, job: Job, n: nat)
    ensures var (disk, j) := Advanced(start, job, Worked(n));
            var (after, phase) := Advance(disk, j, true);
            Advanced(start, job, Worked(n + 1)) == (after, j.(phase := phase))
  {
    assert Worked(n + 1)[..n] == Worked(n);
  }

  lemma NoneAdvanced(start: Disk, job: Job)
    ensures Advanced(start, job, Worked(0)) == (start, job)
  {
  }

  lemma DirectoriesAreMade(start: Disk, job: Job)
    requires job.phase == MakeRoot
    ensures Advanced(start, job, Worked(4)) == (Made(start), job.(phase := Stage(ForReceipt, Create, EMPTY)))
  {
    hide Advanced, WithRoot, WithDir;
    NoneAdvanced(start, job);
    OneMore(start, job, 0);
    OneMore(start, job, 1);
    OneMore(start, job, 2);
    OneMore(start, job, 3);
  }

  lemma TempIsStaged(start: Disk, job: Job, n: nat, disk: Disk, purpose: Purpose)
    requires Advanced(start, job, Worked(n)) == (disk, job.(phase := Stage(purpose, Create, EMPTY)))
    ensures Advanced(start, job, Worked(n + 4))
         == (disk, job.(phase := Staged(purpose, File(job.DataFor(purpose), true))))
  {
    hide Advanced;
    OneMore(start, job, n);
    OneMore(start, job, n + 1);
    OneMore(start, job, n + 2);
    OneMore(start, job, n + 3);
  }

  lemma ReceiptIsRecorded(start: Disk, job: Job)
    requires job.phase == MakeRoot && At(Made(start), job.name).now.None?
    ensures Advanced(start, job, Worked(12)) == (Recorded(start, job), job.(phase := Stage(ForCurrent(Previous(start)), Create, EMPTY)))
  {
    hide Advanced, Made, At;
    DirectoriesAreMade(start, job);
    TempIsStaged(start, job, 4, Made(start), ForReceipt);
    OneMore(start, job, 8);
    OneMore(start, job, 9);
    OneMore(start, job, 10);
    OneMore(start, job, 11);
  }

  lemma RenameIsReached(start: Disk, job: Job)
    requires job.phase == MakeRoot && At(Made(start), job.name).now.None?
    ensures Advanced(start, job, Worked(17)) == (Renamed(start, job), job.(phase := SyncRoot(Previous(start))))
  {
    hide Advanced, Recorded, Previous, At;
    ReceiptIsRecorded(start, job);
    TempIsStaged(start, job, 12, Recorded(start, job), ForCurrent(Previous(start)));
    OneMore(start, job, 16);
  }

  // ---- Orphaning runs ----

  // A publisher that starts and succeeds in its first operations.
  ghost function Fresh(publisher: nat, receipt: Receipt, name: Name, n: nat): seq<Action> {
    [Start(publisher, receipt, name)] + seq(n, _ => Go(publisher, true))
  }

  lemma {:induction false} FreshRun(s: System, publisher: nat, receipt: Receipt, name: Name, n: nat)
    requires publisher !in s.jobs && Valid(receipt)
    ensures var (disk, job) := Advanced(s.disk, Job(receipt, name, MakeRoot), Worked(n));
            After(s, Fresh(publisher, receipt, name, n)) == System(disk, s.jobs[publisher := job])
  {
    hide Advanced, Advance;
    var actions, job := Fresh(publisher, receipt, name, n), Job(receipt, name, MakeRoot);
    if n == 0 {
      NoneAdvanced(s.disk, job);
      assert actions[..0] == [] && After(s, actions[..0]) == s;
    } else {
      assert actions[..|actions| - 1] == Fresh(publisher, receipt, name, n - 1);
      FreshRun(s, publisher, receipt, name, n - 1);
      OneMore(s.disk, job, n - 1);
    }
  }

  lemma OrphansAreNotSane(after: Disk)
    requires Orphans(after)
    ensures !Sane(after)
  {
    assert after.current.now in after.current.disk ==> !CurrentIsBacked(after);
  }

  // While the receipts directory is not durable, a fresh Publish that has just renamed its index can be
  // caught by a crash that keeps current.json and loses the directory it points into.
  lemma FreshPublishOrphans(s: System, publisher: nat, receipt: Receipt, name: Name) returns (after: Disk)
    requires Safe(s) && publisher !in s.jobs && Valid(receipt)
    requires At(Made(s.disk), name).now.None? && false in s.disk.dir.disk
    ensures var t := After(s, Fresh(publisher, receipt, name, 17));
            && publisher in t.jobs && t.jobs[publisher] == Job(receipt, name, SyncRoot(Previous(s.disk)))
            && MayFollow(t.disk, after) && Orphans(after)
            && Current(after) == Err(Missing)
            && !Safe(Next(t, Crash(after)))
  {
    hide Advanced, After, Advance, Sane;
    var job := Job(receipt, name, MakeRoot);
    FreshRun(s, publisher, receipt, name, 17);
    RenameIsReached(s.disk, job);
    SaneRoot(s.disk);
    var disk, index := Renamed(s.disk, job), Some(File(job.Index(), true));
    RenamedIsVolatile(s.disk, job);
    after := Disk(Slot(true, {true}), Slot(false, {false}), Slot(index, {index}), map[]);
    assert Survives(index, after.current.now);
    assert MayFollow(disk, after);
    OrphansAreNotSane(after);
  }

  lemma SaneRoot(disk: Disk)
    requires Sane(disk)
    ensures disk.root.now in disk.root.disk
  {
  }

  lemma RenamedIsVolatile(start: Disk, job: Job)
    requires start.root.now in start.root.disk && false in start.dir.disk
    ensures var disk := Renamed(start, job);
            && true in disk.root.disk && false in disk.dir.disk
            && Some(File(job.Index(), true)) in disk.current.disk
  {
  }

  lemma {:induction false} FirstThenRest(s: System, action: Action, rest: seq<Action>)
    ensures After(s, [action] + rest) == After(Next(s, action), rest)
  {
    hide Next;
    var actions := [action] + rest;
    if rest == [] {
      assert actions == [action] && actions[..0] == [];
      assert After(s, actions[..0]) == s;
    } else {
      assert actions[..|actions| - 1] == [action] + rest[..|rest| - 1];
      FirstThenRest(s, action, rest[..|rest| - 1]);
    }
  }

  // What a crash may leave of a store whose directories are not durable.
  lemma EmptyAfterCrash(disk: Disk, keepsRoot: bool)
    requires Sane(disk)
    requires if keepsRoot then true in disk.root.disk && false in disk.dir.disk && None in disk.current.disk
             else false in disk.root.disk
    ensures var after := Disk(Slot(keepsRoot, {keepsRoot}), Slot(false, {false}), ABSENT, map[]);
            MayFollow(disk, after) && Safe(System(after, map[]))
  {
    hide Backed;
    assert Survives(None, None);
  }

  lemma {:induction false} UnsafeFromEmpty(disk: Disk, keepsRoot: bool) returns (actions: seq<Action>)
    requires disk == Disk(Slot(keepsRoot, {keepsRoot}), Slot(false, {false}), ABSENT, map[])
    requires Safe(System(disk, map[]))
    ensures !Safe(After(System(disk, map[]), actions))
  {
    hide Safe, MayFollow, Orphans;
    var receipt, name := Receipt("run", "", ""), Name("", "");
    var s := System(disk, map[]);
    assert At(Made(disk), name).now.None?;
    var after := FreshPublishOrphans(s, 0, receipt, name);
    var started := Fresh(0, receipt, name, 17);
    actions := started + [Crash(after)];
    assert actions[..|actions| - 1] == started;
  }

  // The store is safe in every run that may follow, crashes included, exactly when its two directories are
  // durable: otherwise some crash, or a fresh Publish and a crash, leaves an index without its receipt.
  lemma SafeForeverExactlyWhen(s: System)
    requires Safe(s)
    ensures (forall actions :: Safe(After(s, actions))) <==> DurableDirectories(s.disk)
  {
    hide Safe, After, Next, MayFollow, Orphans, DurableDirectories, Sane;
    if DurableDirectories(s.disk) {
      forall actions
        ensures Safe(After(s, actions))
      {
        DurableStoreIsSafe(s, actions, Name("", ""), Other(""));
      }
    } else {
      var actions := UnsafeRun(s);
    }
  }

  lemma NeverFalse(slot: Slot<bool>)
    requires slot.now in slot.disk && false !in slot.disk
    ensures slot == Slot(true, {true})
  {
    assert forall b :: b in slot.disk ==> b;
    assert slot.disk == {true};
  }

  lemma UnsafeRun(s: System) returns (actions: seq<Action>)
    requires Safe(s) && !DurableDirectories(s.disk)
    ensures !Safe(After(s, actions))
  {
    hide After, MayFollow, Orphans, ReceiptsAreWhole, Backed;
    var disk := s.disk;
    var keepsRoot := false !in disk.root.disk;
    if keepsRoot {
      NeverFalse(disk.root);
      if false !in disk.dir.disk { NeverFalse(disk.dir); }
    }
    if keepsRoot && exists value :: value in disk.current.disk && value.Some? {
      OrphanedExactlyWhen(disk);
      var after :| MayFollow(disk, after) && Orphans(after);
      actions := [Crash(after)] + [];
      FirstThenRest(s, Crash(after), []);
      NoActions(Next(s, Crash(after)));
      OrphansAreNotSane(after);
    } else {
      EmptyAfterCrash(disk, keepsRoot);
      var after := Disk(Slot(keepsRoot, {keepsRoot}), Slot(false, {false}), ABSENT, map[]);
      var rest := UnsafeFromEmpty(after, keepsRoot);
      actions := [Crash(after)] + rest;
      FirstThenRest(s, Crash(after), rest);
    }
  }

  lemma NoActions(s: System)
    ensures After(s, []) == s
  {
  }

  // ---- What a failed Publish, run alone, leaves behind ----

  lemma {:induction false} AdvancedSplits(start: Disk, job: Job, front: seq<bool>, rest: seq<bool>)
    ensures var (disk, j) := Advanced(start, job, front);
            Advanced(start, job, front + rest) == Advanced(disk, j, rest)
  {
    hide Advance;
    if rest == [] {
      assert front + rest == front;
    } else {
      assert (front + rest)[..|front + rest| - 1] == front + rest[..|rest| - 1];
      AdvancedSplits(start, job, front, rest[..|rest| - 1]);
    }
  }

  lemma AdvancedOnce(disk: Disk, job: Job, oks: seq<bool>)
    requires oks != []
    ensures var (after, phase) := Advance(disk, job, oks[0]);
            Advanced(disk, job, oks) == Advanced(after, job.(phase := phase), oks[1..])
  {
    hide Advance;
    assert [oks[0]] + oks[1..] == oks && [oks[0]][..0] == [];
    assert Advanced(disk, job, [oks[0]][..0]) == (disk, job);
    AdvancedSplits(disk, job, [oks[0]], oks[1..]);
  }

  lemma {:induction false} EndedIsEnded(disk: Disk, job: Job, oks: seq<bool>)
    requires job.phase == Failed || job.phase == Done
    ensures Advanced(disk, job, oks) == (disk, job)
  {
    if oks != [] { EndedIsEnded(disk, job, oks[..|oks| - 1]); }
  }

  // How many operations lead to a phase up to the rename of the index.
  function Before(phase: Phase): int {
    match phase
    case MakeRoot => 0
    case SecureRoot => 1
    case MakeDir => 2
    case SecureDir => 3
    case Stage(ForReceipt, progress, _) => 4 + Steps(progress)
    case Link(_) => 8
    case Unlink => 9
    case SyncReceipts => 10
    case ReadPrevious => 11
    case Stage(ForCurrent(_), progress, _) => 12 + Steps(progress)
    case Rename(_, _) => 16
    case SyncRoot(_) => 17
    case _ => -1
  }

  function Steps(progress: Progress): nat {
    match progress
    case Create => 0
    case Write => 1
    case Sync => 2
    case Close => 3
  }

  // The call gets as far as renaming the index: its first 17 operations work and its name is free.
  predicate Replaces(start: Disk, name: Name, oks: seq<bool>) {
    |oks| >= 17 && oks[..17] == Worked(17) && At(Made(start), name).now.None?
  }

  lemma EarlyStep(disk: Disk, job: Job, ok: bool)
    requires 0 <= Before(job.phase) < 17 && (job.phase.MakeRoot? ==> !disk.root.now ==> disk.current == ABSENT)
    ensures var (after, phase) := Advance(disk, job, ok);
            && (Before(job.phase) < 16 || !ok ==> after.current.now == disk.current.now)
            && (Before(phase) == Before(job.phase) + 1 || phase == Failed)
            && (phase == Failed <==> !ok || (job.phase.Link? && At(disk, job.name).now.Some?))
  {
  }

  lemma {:induction false} IndexIsKept(start: Disk, job: Job, oks: seq<bool>)
    requires Sane(start) && job.phase == MakeRoot && !Replaces(start, job.name, oks)
    ensures var (disk, j) := Advanced(start, job, oks);
            && disk.current.now == start.current.now && j == job.(phase := j.phase)
            && (j.phase == Failed || (|oks| < 17 && oks == Worked(|oks|) && Before(j.phase) == |oks|))
  {
    hide Advance, Made, At, Sane;
    if oks != [] {
      var front := oks[..|oks| - 1];
      FirstSeventeen(start, job.name, oks);
      IndexIsKept(start, job, front);
      var (disk, j) := Advanced(start, job, front);
      if j.phase == Failed {
        EndedIsEnded(disk, j, [oks[|oks| - 1]]);
        AdvancedOnce(disk, j, [oks[|oks| - 1]]);
        EndedStep(disk, j, oks[|oks| - 1]);
      } else {
        SaneWithoutRoot(start);
        NotYetStarted(start, job, front);
        EarlyStep(disk, j, oks[|oks| - 1]);
        if oks[|oks| - 1] { OneMoreWorked(oks); LinkFindsName(start, job, oks); }
      }
    }
  }

  lemma OneMoreWorked(oks: seq<bool>)
    requires oks != [] && oks[..|oks| - 1] == Worked(|oks| - 1) && oks[|oks| - 1]
    ensures oks == Worked(|oks|)
  {
    forall k | 0 <= k < |oks| ensures oks[k] == Worked(|oks|)[k] {
      if k < |oks| - 1 { assert oks[k] == oks[..|oks| - 1][k]; }
    }
  }

  lemma FirstSeventeen(start: Disk, name: Name, oks: seq<bool>)
    requires oks != [] && !Replaces(start, name, oks)
    ensures !Replaces(start, name, oks[..|oks| - 1])
  {
    if |oks| > 17 { assert oks[..|oks| - 1][..17] == oks[..17]; }
  }

  lemma EndedStep(disk: Disk, job: Job, ok: bool)
    requires job.phase == Failed
    ensures Advance(disk, job, ok) == (disk, Failed)
  {
  }

  lemma SaneWithoutRoot(disk: Disk)
    requires Sane(disk)
    ensures !disk.root.now ==> disk.current == ABSENT
  {
  }

  lemma NotYetStarted(start: Disk, job: Job, oks: seq<bool>)
    ensures oks == [] ==> Advanced(start, job, oks) == (start, job)
    ensures Before(MakeRoot) == 0
  {
  }

  // Once the name is linked it was free.
  lemma LinkFindsName(start: Disk, job: Job, oks: seq<bool>)
    requires job.phase == MakeRoot && 0 < |oks| <= 17 && oks == Worked(|oks|) && !Replaces(start, job.name, oks)
    ensures |oks| == 17 ==> Advanced(start, job, oks[..16]).1.phase == Failed
  {
    hide Advance, Made, At;
    if |oks| == 17 {
      assert oks[..17] == oks;
      NameIsTaken(start, job);
      assert oks[..16] == Worked(9) + seq(7, _ => true);
      AdvancedSplits(start, job, Worked(9), seq(7, _ => true));
      var (disk, j) := Advanced(start, job, Worked(9));
      EndedIsEnded(disk, j, seq(7, _ => true));
    }
  }

  lemma NameIsTaken(start: Disk, job: Job)
    requires job.phase == MakeRoot && At(Made(start), job.name).now.Some?
    ensures Advanced(start, job, Worked(9)).1.phase == Failed
  {
    hide Advanced, Made, At;
    DirectoriesAreMade(start, job);
    TempIsStaged(start, job, 4, Made(start), ForReceipt);
    OneMore(start, job, 8);
  }

  // ---- Going back to the previous index ----

  // The operations left until the previous index is back in place.
  function Left(phase: Phase): nat {
    match phase
    case Stage(ForRollback(_), progress, _) => 5 - Steps(progress)
    case Restore(_) => 1
    case _ => 0
  }

  predicate GoesBackTo(job: Job, restored: Data) {
    match job.phase
    case Stage(ForRollback(data), progress, temp) =>
      && data == restored
      && (progress == Sync ==> temp == File(restored, false)) && (progress == Close ==> temp == File(restored, true))
    case Restore(temp) => temp == File(restored, true)
    case _ => false
  }

  lemma RemovedOrNot(disk: Disk, job: Job, oks: seq<bool>)
    requires job.phase == RemoveCurrent && Advanced(disk, job, oks).1.phase == Failed
    ensures |oks| > 0
    ensures Advanced(disk, job, oks).0.current.now == if oks[0] then None else disk.current.now
  {
    if oks != [] {
      AdvancedOnce(disk, job, oks);
      var (after, phase) := Advance(disk, job, oks[0]);
      EndedIsEnded(after, job.(phase := phase), oks[1..]);
    }
  }

  lemma RestoredThen(disk: Disk, job: Job, oks: seq<bool>)
    requires job.phase == SyncRestored
    ensures Advanced(disk, job, oks).0.current.now == disk.current.now
  {
    if oks != [] {
      AdvancedOnce(disk, job, oks);
      var (after, phase) := Advance(disk, job, oks[0]);
      EndedIsEnded(after, job.(phase := phase), oks[1..]);
    }
  }

  // All the restoring operations work, or the first that fails is followed by the removal.
  predicate FailsFirstAt(oks: seq<bool>, from: nat, m: nat) {
    from <= m < |oks| && !oks[m] && forall k :: from <= k < m ==> oks[k]
  }

  lemma {:induction false} GoingBack(disk: Disk, job: Job, oks: seq<bool>, restored: Data)
    requires GoesBackTo(job, restored) && Advanced(disk, job, oks).1.phase == Failed
    ensures var now := Advanced(disk, job, oks).0.current.now;
            var n := Left(job.phase);
            && ((forall k :: 0 <= k < n && k < |oks| ==> oks[k]) ==> |oks| >= n && now == Some(File(restored, true)))
            && (forall m: nat :: m < n && FailsFirstAt(oks, 0, m) ==>
                  |oks| > m + 1 && now == if oks[m + 1] then None else disk.current.now)
    decreases Left(job.phase)
  {
    hide Advanced;
    if oks == [] {
      NotYetStarted(disk, job, oks);
    } else {
      AdvancedOnce(disk, job, oks);
      var (after, phase) := Advance(disk, job, oks[0]);
      var next := job.(phase := phase);
      if !oks[0] {
        RemovedOrNot(after, next, oks[1..]);
        assert forall m: nat :: FailsFirstAt(oks, 0, m) ==> m == 0;
      } else if phase.SyncRestored? {
        RestoredThen(after, next, oks[1..]);
        assert !FailsFirstAt(oks, 0, 0);
      } else {
        GoingBack(after, next, oks[1..], restored);
        if forall k :: 0 <= k < Left(job.phase) && k < |oks| ==> oks[k] {
          assert forall k :: 0 <= k < |oks[1..]| ==> oks[1..][k] == oks[k + 1];
        }
        forall m: nat | m < Left(job.phase) && FailsFirstAt(oks, 0, m)
          ensures m > 0 && FailsFirstAt(oks[1..], 0, m - 1)
        {
          assert forall k :: 0 <= k < m - 1 ==> oks[1..][k] == oks[k + 1];
        }
      }
    }
  }

  lemma SameIndexSameCurrent(a: Disk, b: Disk)
    requires Sane(a) && Sane(b)
    requires a.current.now.Some? <==> b.current.now.Some?
    requires a.current.now.Some? ==> a.current.now.value.data == b.current.now.value.data
    ensures Current(a) == Current(b)
  {
    hide Sane, Current;
    CurrentIsFoundOrMissing(System(a, map[]));
    CurrentIsFoundOrMissing(System(b, map[]));
  }

  // Past the rename, the sync of the state directory has failed and the call goes back to what it found.
  lemma PastRename(start: Disk, job: Job, oks: seq<bool>)
    requires Sane(start) && Valid(job.receipt) && job.phase == MakeRoot
    requires Replaces(start, job.name, oks) && Advanced(start, job, oks).1.phase == Failed
    ensures |oks| > 17 && !oks[17]
    ensures var previous := start.current.now;
            var next := job.(phase := if previous.Some? then Stage(ForRollback(previous.value.data), Create, EMPTY) else RemoveCurrent);
            Advanced(start, job, oks) == Advanced(Renamed(start, job), next, oks[18..])
  {
    hide Advanced, Recorded, At, Made, Sane;
    RenameIsReached(start, job);
    assert oks == Worked(17) + oks[17..];
    AdvancedSplits(start, job, Worked(17), oks[17..]);
    MadeKeepsIndex(start);
    var disk, j := Renamed(start, job), job.(phase := SyncRoot(Previous(start)));
    NotYetStarted(disk, j, oks[17..]);
    if |oks| > 17 {
      AdvancedOnce(disk, j, oks[17..]);
      assert oks[17..][1..] == oks[18..];
      if oks[17] { EndedIsEnded(WithRootSynced(disk), j.(phase := Done), oks[18..]); }
    }
  }

  lemma MadeKeepsIndex(start: Disk)
    requires Sane(start)
    ensures Made(start).current.now == start.current.now
  {
  }

  // What Current finds after a Publish that has failed, run alone, for every combination of operations
  // that work and operations that fail. It is what it was while the index was not yet renamed; after that
  // it is what it was exactly if the previous index could be staged and renamed back; else nothing if
  // the index could be removed; else the receipt whose Publish has failed.
  lemma FailedPublishExactly(start: Disk, receipt: Receipt, name: Name, oks: seq<bool>)
    requires Sane(start) && Valid(receipt)
    requires Advanced(start, Job(receipt, name, MakeRoot), oks).1.phase == Failed
    ensures var found := Current(Advanced(start, Job(receipt, name, MakeRoot), oks).0);
            var goesBack := forall k :: 18 <= k < 23 && k < |oks| ==> oks[k];
            && (!Replaces(start, name, oks) ==> found == Current(start))
            && (Replaces(start, name, oks) ==> |oks| > 18 && !oks[17])
            && (Replaces(start, name, oks) && start.current.now.Some? && goesBack ==> |oks| >= 23 && found == Current(start))
            && (Replaces(start, name, oks) && start.current.now.Some? ==>
                  forall m: nat :: m < 23 && FailsFirstAt(oks, 18, m) ==>
                    |oks| > m + 1 && found == if oks[m + 1] then Err(Missing) else Ok((receipt, name)))
            && (Replaces(start, name, oks) && start.current.now.None? ==>
                  found == if oks[18] then Err(Missing) else Ok((receipt, name)))
  {
    hide Advance, Advanced, Sane, Current, Replaces;
    var job := Job(receipt, name, MakeRoot);
    LoneRun(start, job, oks);
    var (disk, j) := Advanced(start, job, oks);
    if !Replaces(start, name, oks) {
      IndexIsKept(start, job, oks);
      SameIndexSameCurrent(disk, start);
    } else {
      PastRename(start, job, oks);
      OutcomeOf(start, disk, receipt, name);
      if start.current.now.None? {
        RemovedOrNot(Renamed(start, job), job.(phase := RemoveCurrent), oks[18..]);
      } else {
        var previous := start.current.now.value.data;
        var next := job.(phase := Stage(ForRollback(previous), Create, EMPTY));
        GoingBack(Renamed(start, job), next, oks[18..], previous);
        WentBack(oks);
        if oks[18..] == [] { NotYetStarted(Renamed(start, job), next, []); }
      }
    }
  }

  lemma WentBack(oks: seq<bool>)
    requires |oks| >= 18
    ensures (forall k :: 18 <= k < 23 && k < |oks| ==> oks[k]) ==> forall k :: 0 <= k < 5 && k < |oks[18..]| ==> oks[18..][k]
    ensures forall m: nat :: FailsFirstAt(oks, 18, m) ==> FailsFirstAt(oks[18..], 0, m - 18) && oks[18..][m - 18] == oks[m]
  {
  }

  // The index left by a lone call decides what Current finds.
  lemma OutcomeOf(start: Disk, disk: Disk, receipt: Receipt, name: Name)
    requires Sane(start) && Sane(disk)
    ensures disk.current.now.None? ==> Current(disk) == Err(Missing)
    ensures disk.current.now == Some(File(Index(receipt.runId, name, Sha256(Record(receipt))), true)) ==>
      Current(disk) == Ok((receipt, name))
    ensures start.current.now.Some? && disk.current.now == Some(File(start.current.now.value.data, true)) ==>
      Current(disk) == Current(start)
  {
    hide Sane, Current;
    CurrentIsFoundOrMissing(System(disk, map[]));
    if start.current.now.Some? && disk.current.now == Some(File(start.current.now.value.data, true)) {
      SameIndexSameCurrent(disk, start);
    }
  }
}
