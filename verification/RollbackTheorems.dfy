// What a rollback guarantees (internal/app/command_operations.go:189-240).
module RollbackTheorems {
  import opened Text
  import opened Sorting
  import opened Rollback

  // ---- Sorting ----

  lemma FileOrder()
    ensures WeakOrder(FileLess)
  {
    forall a: ManagedFile, b: ManagedFile, c: ManagedFile
      ensures !FileLess(a, a) && (FileLess(a, b) && !FileLess(c, b) ==> !FileLess(c, a))
    {
      TextOrder(a.path, b.path, c.path);
    }
  }

  // The files are taken in path order, each as often as it was recorded.
  lemma SortFilesSorts(files: seq<ManagedFile>)
    ensures forall i, j :: 0 <= i < j < |files| ==> |SortFiles(files)| == |files| && !Less(SortFiles(files)[j].path, SortFiles(files)[i].path)
    ensures multiset(SortFiles(files)) == multiset(files)
  {
    hide WeakOrder, Less;
    FileOrder();
    SortBySorts(FileLess, files);
    assert |SortFiles(files)| == |multiset(SortFiles(files))| == |multiset(files)| == |files|;
    forall i, j | 0 <= i < j < |files|
      ensures !Less(SortFiles(files)[j].path, SortFiles(files)[i].path)
    {
      assert !FileLess(SortFiles(files)[j], SortFiles(files)[i]);
    }
  }

  // ---- What the receipt says of a file ----

  predicate IsMade(file: ManagedFile) {
    file.ownership == "created" || file.ownership == "configurator"
  }

  // Adopted, or made in place of something that was backed up.
  predicate IsAdopted(file: ManagedFile) {
    file.ownership == "adopted" || (IsMade(file) && file.backup != "")
  }

  predicate IsCreated(file: ManagedFile) {
    IsMade(file) && file.backup == ""
  }

  predicate IsPackaged(file: ManagedFile) {
    file.ownership == "package-owned"
  }

  // ---- Preconditions ----

  // Exactly when a file can be rolled back: a created file that is gone already, or a live file with the
  // recorded digest, with a backup if it was adopted and without one if a package owns it.
  lemma PlannedExactlyWhen(port: Port, files: Files, file: ManagedFile)
    ensures PlanFile(port, files, file).Ok? <==>
      && file.path !in port.hidden && IsPath(file.path) && IsSha256(file.afterHash)
      && (IsAdopted(file) || IsCreated(file) || IsPackaged(file))
      && (IsAdopted(file) ==> IsPath(file.backup) && IsSha256(file.beforeHash))
      && (IsPackaged(file) ==> file.backup == "" && file.beforeHash == "")
      && (if file.path in files then port.hash(files[file.path]) == file.afterHash else IsCreated(file))
  {
  }

  // A refusal names the file and a reason that holds of it.
  lemma ConflictNamesItsReason(port: Port, files: Files, file: ManagedFile)
    requires PlanFile(port, files, file).Err?
    ensures file.path in port.hidden <==> PlanFile(port, files, file) == Err(Unobserved(file.path))
    ensures var error := PlanFile(port, files, file).error;
            file.path !in port.hidden ==>
            && error.Conflicts? && error.target == file.path
            && match error.kind
               case InvalidClass => file.ownership !in ["created", "configurator", "adopted", "package-owned"]
               case InvalidPath => !IsPath(file.path)
               case InvalidHash => !IsSha256(file.afterHash) || (file.path in files && !IsSha256(port.hash(files[file.path])))
               case BackupMissing => IsAdopted(file) && (file.backup == "" || file.beforeHash == "")
               case InvalidBackup => IsAdopted(file) && (!IsPath(file.backup) || !IsSha256(file.beforeHash))
               case BackupNotAllowed => IsPackaged(file) && (file.backup != "" || file.beforeHash != "")
               case LiveMissing => file.path !in files && !IsCreated(file)
               case LiveMismatch => file.path in files && port.hash(files[file.path]) != file.afterHash
  {
  }

  // The inverse planned for a file.
  ghost predicate Undoes(files: Files, file: ManagedFile, inverse: Inverse) {
    && (IsAdopted(file) || IsCreated(file) || IsPackaged(file))
    && inverse ==
         if IsAdopted(file) then RestoreBackup(file.path, file.backup)
         else if IsPackaged(file) then PackageRestore(file.path)
         else if file.path in files then RemoveFile(file.path)
         else NoOp(file.path)
  }

  // Planning succeeds exactly when every file can be rolled back, and gives each its inverse, in order.
  lemma {:induction false} PlanAllPlansEach(port: Port, files: Files, managed: seq<ManagedFile>)
    ensures PlanAll(port, files, managed).Ok? <==>
      forall i :: 0 <= i < |managed| ==> PlanFile(port, files, managed[i]).Ok?
    ensures PlanAll(port, files, managed).Ok? ==>
      && |PlanAll(port, files, managed).value| == |managed|
      && forall i :: 0 <= i < |managed| ==>
           && PlanFile(port, files, managed[i]) == Ok(PlanAll(port, files, managed).value[i])
           && Undoes(files, managed[i], PlanAll(port, files, managed).value[i])
  {
    hide PlanFile, Undoes;
    if managed != [] {
      var rest := managed[1..];
      PlanAllPlansEach(port, files, rest);
      PlannedUndoes(port, files, managed[0]);
      if PlanAll(port, files, managed).Ok? {
        var all := PlanAll(port, files, managed).value;
        forall i | 0 <= i < |managed|
          ensures PlanFile(port, files, managed[i]) == Ok(all[i]) && Undoes(files, managed[i], all[i])
        {
          if 0 < i { assert managed[i] == rest[i - 1] && all[i] == PlanAll(port, files, rest).value[i - 1]; }
        }
      } else if PlanFile(port, files, managed[0]).Ok? {
        var i :| 0 <= i < |rest| && PlanFile(port, files, rest[i]).Err?;
        assert managed[i + 1] == rest[i];
      }
      if forall i :: 0 <= i < |managed| ==> PlanFile(port, files, managed[i]).Ok? {
        assert PlanFile(port, files, managed[0]).Ok?;
        assert forall i :: 0 <= i < |rest| ==> rest[i] == managed[i + 1];
      }
    }
  }

  lemma PlannedUndoes(port: Port, files: Files, file: ManagedFile)
    ensures PlanFile(port, files, file).Ok? ==> Undoes(files, file, PlanFile(port, files, file).value)
  {
  }

  // ---- Nothing before everything is planned ----

  // If any file cannot be rolled back, or the new receipt has no identity of its own, no file is touched
  // and nothing is published.
  lemma NothingRunsUnlessAllIsPlanned(port: Port, config: Config, files: Files, id: string)
    requires id in config.stored
    requires (exists file :: file in config.stored[id].managedFiles && PlanFile(port, files, file).Err?)
      || config.newRunId(config.stored[id]) == "" || config.newRunId(config.stored[id]) == config.stored[id].runId
    ensures var ending := RollbackOf(port, config, files, id);
            ending.files == files && ending.executed == [] && ending.published.None? && ending.result.Err?
  {
    hide PlanFile, Undoes, ExecuteAll;
    var managed := config.stored[id].managedFiles;
    var sorted := SortFiles(managed);
    SortFilesSorts(managed);
    PlanAllPlansEach(port, files, sorted);
    if file :| file in managed && PlanFile(port, files, file).Err? {
      assert file in multiset(managed);
      assert file in multiset(sorted);
      var i :| 0 <= i < |sorted| && sorted[i] == file;
    }
  }

  // A receipt that records a state from before for a package-owned file blocks its own rollback.
  lemma PackageBeforeStateBlocksRollback(port: Port, config: Config, files: Files, id: string, file: ManagedFile)
    requires id in config.stored && file in config.stored[id].managedFiles
    requires file.ownership == "package-owned" && (file.beforeHash != "" || file.backup != "")
    ensures var ending := RollbackOf(port, config, files, id);
            ending.files == files && ending.executed == [] && ending.published.None? && ending.result.Err?
  {
    hide RollbackOf;
    assert PlanFile(port, files, file).Err?;
    NothingRunsUnlessAllIsPlanned(port, config, files, id);
  }

  // ---- Running the inverses ----

  ghost predicate DistinctTargets(inverses: seq<Inverse>) {
    forall i, j :: 0 <= i < j < |inverses| ==> inverses[i].target != inverses[j].target
  }

  // No inverse changes a file that another one restores from.
  ghost predicate BackupsApart(inverses: seq<Inverse>) {
    forall i, j :: 0 <= i < |inverses| && 0 <= j < |inverses| && inverses[i].RestoreBackup? ==> inverses[i].backup != inverses[j].target
  }

  // What the target of an inverse becomes, from the files as they were at the start.
  ghost predicate Achieved(port: Port, start: Files, files: Files, inverse: Inverse) {
    match inverse
    case RemoveFile(target) => target !in files
    case RestoreBackup(target, backup) => backup in start && target in files && files[target] == start[backup]
    case PackageRestore(target) => target in files && files[target] == port.shipped(target)
    case NoOp(target) => SameAt(start, files, target)
  }

  ghost predicate SameAt(a: Files, b: Files, path: string) {
    (path in a <==> path in b) && (path in a ==> a[path] == b[path])
  }

  // Inverses before the failed one are achieved; the failed one, those after it and every other path are
  // as they were. Without a failure all are achieved.
  lemma {:induction false} InversesRunInOrder(port: Port, files: Files, inverses: seq<Inverse>) returns (k: nat)
    requires DistinctTargets(inverses) && BackupsApart(inverses)
    ensures var run := ExecuteAll(port, files, inverses);
            && k <= |inverses|
            && (run.failed.None? <==> k == |inverses|)
            && (run.failed.Some? ==> run.failed.value == inverses[k].target && !inverses[k].NoOp?)
            && (forall i :: 0 <= i < k ==> Achieved(port, files, run.files, inverses[i]))
            && (forall path :: (forall i :: 0 <= i < k ==> inverses[i].target != path) ==> SameAt(files, run.files, path))
            && (run.executed == [] <==> AllNoOp(inverses[..k]))
    decreases |inverses|
  {
    hide Execute, Fails, Achieved, SameAt;
    SameAsItself(files);
    if inverses == [] {
      k := 0;
    } else if !inverses[0].NoOp? && Fails(port, files, inverses[0]) {
      k := 0;
    } else {
      var first := inverses[0];
      var next := if first.NoOp? then files else Execute(port, files, first);
      var n := InversesRunInOrder(port, next, inverses[1..]);
      k := n + 1;
      var run := ExecuteAll(port, files, inverses);
      assert run.files == ExecuteAll(port, next, inverses[1..]).files;
      forall path | path != first.target
        ensures SameAt(files, next, path)
      {
        OneTargetChanges(port, files, first, path);
      }
      forall i | 0 <= i < k
        ensures Achieved(port, files, run.files, inverses[i])
      {
        if i == 0 {
          FirstIsAchieved(port, files, next, first);
          assert forall j :: 0 <= j < n ==> inverses[1..][j] == inverses[j + 1];
          StaysAchieved(port, files, next, run.files, first);
        } else {
          assert inverses[i] == inverses[1..][i - 1];
          LaterIsAchieved(port, files, next, run.files, first, inverses[i]);
        }
      }
      forall path | forall i :: 0 <= i < k ==> inverses[i].target != path
        ensures SameAt(files, run.files, path)
      {
        assert inverses[0].target != path;
        forall i | 0 <= i < n ensures inverses[1..][i].target != path {
          assert inverses[1..][i] == inverses[i + 1];
        }
        SameThrough(files, next, run.files, path);
      }
      RestIsNoOp(inverses, k);
    }
  }

  lemma RestIsNoOp(inverses: seq<Inverse>, k: nat)
    requires 0 < k <= |inverses|
    ensures AllNoOp(inverses[..k]) <==> inverses[0].NoOp? && AllNoOp(inverses[1..][..k - 1])
  {
    var a, b := inverses[..k], inverses[1..][..k - 1];
    assert a[0] == inverses[0] && forall i :: 0 <= i < |b| ==> a[i + 1] == b[i];
    assert forall i :: 0 < i < |a| ==> a[i] == b[i - 1];
  }

  lemma SameAsItself(files: Files)
    ensures forall path :: SameAt(files, files, path)
  {
  }

  lemma SameThrough(a: Files, b: Files, c: Files, path: string)
    requires SameAt(a, b, path) && SameAt(b, c, path)
    ensures SameAt(a, c, path)
  {
  }

  lemma OneTargetChanges(port: Port, files: Files, inverse: Inverse, path: string)
    requires !Fails(port, files, inverse) || inverse.NoOp?
    requires path != inverse.target
    ensures SameAt(files, if inverse.NoOp? then files else Execute(port, files, inverse), path)
  {
  }

  lemma FirstIsAchieved(port: Port, files: Files, next: Files, inverse: Inverse)
    requires !Fails(port, files, inverse) || inverse.NoOp?
    requires next == if inverse.NoOp? then files else Execute(port, files, inverse)
    ensures Achieved(port, files, next, inverse)
  {
  }

  lemma StaysAchieved(port: Port, start: Files, next: Files, files: Files, inverse: Inverse)
    requires Achieved(port, start, next, inverse) && SameAt(next, files, inverse.target)
    ensures Achieved(port, start, files, inverse)
  {
  }

  lemma LaterIsAchieved(port: Port, start: Files, next: Files, files: Files, first: Inverse, inverse: Inverse)
    requires Achieved(port, next, files, inverse)
    requires inverse.target != first.target && (inverse.RestoreBackup? ==> inverse.backup != first.target)
    requires forall path :: path != first.target ==> SameAt(start, next, path)
    ensures Achieved(port, start, files, inverse)
  {
    assert SameAt(start, next, inverse.target);
    if inverse.RestoreBackup? { assert SameAt(start, next, inverse.backup); }
  }

  // ---- Main results ----

  ghost predicate DistinctPaths(managed: seq<ManagedFile>) {
    forall i, j :: 0 <= i < j < |managed| ==> managed[i].path != managed[j].path
  }

  ghost predicate BackupsOutside(managed: seq<ManagedFile>) {
    forall i, j :: 0 <= i < |managed| && 0 <= j < |managed| ==> managed[i].backup != managed[j].path
  }

  // A created file is gone, an adopted file has the backup's content, a package file what its package ships.
  ghost predicate Restored(port: Port, start: Files, files: Files, file: ManagedFile) {
    && (IsAdopted(file) || IsCreated(file) || IsPackaged(file))
    && (IsAdopted(file) ==> file.backup in start && file.path in files && files[file.path] == start[file.backup])
    && (IsCreated(file) ==> file.path !in files)
    && (IsPackaged(file) ==> file.path in files && files[file.path] == port.shipped(file.path))
  }

  lemma AchievedIsRestored(port: Port, start: Files, files: Files, file: ManagedFile, inverse: Inverse)
    requires Undoes(start, file, inverse) && Achieved(port, start, files, inverse)
    ensures Restored(port, start, files, file)
  {
  }

  lemma {:induction false} PlannedTargets(port: Port, files: Files, managed: seq<ManagedFile>)
    requires PlanAll(port, files, managed).Ok? && DistinctPaths(managed) && BackupsOutside(managed)
    ensures var inverses := PlanAll(port, files, managed).value;
            && |inverses| == |managed|
            && DistinctTargets(inverses) && BackupsApart(inverses)
            && forall i :: 0 <= i < |managed| ==> inverses[i].target == managed[i].path && Undoes(files, managed[i], inverses[i])
  {
    hide PlanFile, PlanAll;
    PlanAllPlansEach(port, files, managed);
    var inverses := PlanAll(port, files, managed).value;
    forall i | 0 <= i < |managed|
      ensures inverses[i].target == managed[i].path
      ensures inverses[i].RestoreBackup? ==> inverses[i].backup == managed[i].backup
    {
      assert Undoes(files, managed[i], inverses[i]);
    }
  }

  // The first k files in path order are rolled back and nothing else is changed; k is all of them exactly
  // when no Execute failed, and only then is the new receipt published.
  lemma RollbackRestores(port: Port, config: Config, files: Files, id: string) returns (k: nat)
    requires id in config.stored && config.lockable
    requires var managed := SortFiles(config.stored[id].managedFiles); DistinctPaths(managed) && BackupsOutside(managed)
    requires PlanAll(port, files, SortFiles(config.stored[id].managedFiles)).Ok?
    requires var inverses := PlanAll(port, files, SortFiles(config.stored[id].managedFiles)).value;
             NextReceipt(config, config.stored[id], id, AllNoOp(inverses)).Ok?
    ensures var managed := SortFiles(config.stored[id].managedFiles);
            var ending := RollbackOf(port, config, files, id);
            && k <= |managed|
            && (forall i :: 0 <= i < k ==> Restored(port, files, ending.files, managed[i]))
            && (forall path :: (forall i :: 0 <= i < k ==> managed[i].path != path) ==> SameAt(files, ending.files, path))
            && (k < |managed| ==> ending.published.None? && ending.result == Err(Unexecuted(managed[k].path)))
            && (k == |managed| ==> (ending.published.Some? <==> config.publishable))
            && (ending.published.Some? ==> k == |managed| && (ending.published.value.noChange <==> ending.executed == []))
  {
    hide PlanAll, ExecuteAll, SortFiles, AllNoOp, Undoes, Achieved, SameAt, Restored, DistinctPaths, BackupsOutside, DistinctTargets, BackupsApart;
    var managed := SortFiles(config.stored[id].managedFiles);
    var inverses := PlanAll(port, files, managed).value;
    PlannedTargets(port, files, managed);
    k := InversesRunInOrder(port, files, inverses);
    var run := ExecuteAll(port, files, inverses);
    forall i | 0 <= i < k
      ensures Restored(port, files, run.files, managed[i])
    {
      AchievedIsRestored(port, files, run.files, managed[i], inverses[i]);
    }
    assert inverses[..|inverses|] == inverses;
  }

  // Sorting keeps the paths distinct and the backups outside them.
  lemma SortedPathsStayApart(managed: seq<ManagedFile>)
    requires DistinctPaths(managed) && BackupsOutside(managed)
    ensures DistinctPaths(SortFiles(managed)) && BackupsOutside(SortFiles(managed))
  {
    var sorted := SortFiles(managed);
    SortFilesSorts(managed);
    forall i | 0 <= i < |sorted|
      ensures sorted[i] in managed
    {
      assert sorted[i] in multiset(sorted);
      assert sorted[i] in multiset(managed);
    }
    forall i, j | 0 <= i < j < |sorted|
      ensures sorted[i].path != sorted[j].path
    {
      if sorted[i].path == sorted[j].path {
        var a :| 0 <= a < |managed| && managed[a] == sorted[i];
        var b :| 0 <= b < |managed| && managed[b] == sorted[j];
        assert a == b;
        TwiceInSequence(sorted, i, j);
        OnceInSequence(managed, a);
      }
    }
  }

  lemma TwiceInSequence<T>(s: seq<T>, i: nat, j: nat)
    requires i < j < |s| && s[i] == s[j]
    ensures multiset(s)[s[i]] >= 2
  {
    assert s == s[..j] + [s[j]] + s[j + 1..];
    assert s[..j][i] == s[i] && s[i] in multiset(s[..j]);
  }

  lemma OnceInSequence<T>(s: seq<T>, i: nat)
    requires i < |s| && forall k :: 0 <= k < |s| && k != i ==> s[k] != s[i]
    ensures multiset(s)[s[i]] == 1
  {
    assert s == s[..i] + [s[i]] + s[i + 1..];
    assert s[i] !in s[..i] && s[i] !in s[i + 1..];
  }

  ghost predicate HasDigest(port: Port, files: Files, path: string, digest: string) {
    path in files && port.hash(files[path]) == digest
  }

  // What the receipt says of a rollback that has succeeded: it repeats the old one but for its own
  // identity and times, that it is a successful rollback of it, and whether anything had to be done.
  lemma PublishedReceiptIs(port: Port, config: Config, files: Files, id: string)
    requires RollbackOf(port, config, files, id).published.Some?
    ensures id in config.stored
    ensures var was, r := config.stored[id], RollbackOf(port, config, files, id).published.value;
            && r.runId == config.newRunId(was) && r.runId != "" && r.runId != was.runId
            && r.command == "rollback" && r.status == "success" && r.rollbackOf == id
            && r.startedAt == r.finishedAt == config.now
            && r.managedFiles == was.managedFiles && r.systemTransactions == was.systemTransactions && r.rest == was.rest
            && r.warnings == [] && r.errors == []
            && (r.noChange <==> RollbackOf(port, config, files, id).executed == [])
  {
    hide PlanAll, SortFiles;
    var inverses := PlanAll(port, files, SortFiles(config.stored[id].managedFiles)).value;
    NothingExecuted(port, files, inverses);
  }

  lemma {:induction false} NothingExecuted(port: Port, files: Files, inverses: seq<Inverse>)
    requires ExecuteAll(port, files, inverses).failed.None?
    ensures ExecuteAll(port, files, inverses).executed == [] <==> AllNoOp(inverses)
    decreases |inverses|
  {
    hide Execute, Fails;
    if inverses != [] {
      var next := if inverses[0].NoOp? then files else Execute(port, files, inverses[0]);
      NothingExecuted(port, next, inverses[1..]);
      assert forall i :: 0 < i < |inverses| ==> inverses[i] == inverses[1..][i - 1];
      assert forall i :: 0 <= i < |inverses[1..]| ==> inverses[1..][i] == inverses[i + 1];
    }
  }

  // A rollback that succeeds has restored every file recorded, and nothing else has changed.
  lemma SuccessRestoresAll(port: Port, config: Config, files: Files, id: string)
    requires RollbackOf(port, config, files, id).result.Ok?
    requires DistinctPaths(config.stored[id].managedFiles) && BackupsOutside(config.stored[id].managedFiles)
    ensures var after := RollbackOf(port, config, files, id).files;
            && (forall file :: file in config.stored[id].managedFiles ==> Restored(port, files, after, file))
            && forall path :: (forall file :: file in config.stored[id].managedFiles ==> file.path != path) ==> SameAt(files, after, path)
  {
    hide PlanAll, ExecuteAll, SortFiles, AllNoOp, Restored, DistinctPaths, BackupsOutside, NextReceipt, SameAt;
    var managed := config.stored[id].managedFiles;
    var sorted := SortFiles(managed);
    SortedPathsStayApart(managed);
    SortFilesSorts(managed);
    var k := RollbackRestores(port, config, files, id);
    assert k == |sorted|;
    forall file: ManagedFile
      ensures file in managed <==> file in sorted
    {
      assert file in multiset(managed) <==> file in multiset(sorted);
    }
  }

  // The digest from before is recorded, checked for its form, and never compared: after a rollback that
  // succeeds the adopted files have their digests from before exactly if their backups had them.
  lemma AdoptedFilesGetTheirDigests(port: Port, config: Config, files: Files, id: string)
    requires RollbackOf(port, config, files, id).result.Ok?
    requires DistinctPaths(config.stored[id].managedFiles) && BackupsOutside(config.stored[id].managedFiles)
    ensures var after := RollbackOf(port, config, files, id).files;
            var managed := config.stored[id].managedFiles;
            ((forall file :: file in managed && IsAdopted(file) ==> HasDigest(port, after, file.path, file.beforeHash))
             <==> (forall file :: file in managed && IsAdopted(file) ==> HasDigest(port, files, file.backup, file.beforeHash)))
  {
    hide PlanAll, ExecuteAll, SortFiles, DistinctPaths, BackupsOutside, SameAt;
    SuccessRestoresAll(port, config, files, id);
    var after := RollbackOf(port, config, files, id).files;
    forall file | file in config.stored[id].managedFiles && IsAdopted(file)
      ensures HasDigest(port, after, file.path, file.beforeHash) <==> HasDigest(port, files, file.backup, file.beforeHash)
    {
      assert Restored(port, files, after, file);
    }
  }

  function Repeated(c: char): (hash: string)
    ensures |hash| == 64 && hash[..1] == [c] && (IsHexDigit(c) ==> IsSha256(hash))
  {
    seq(64, _ => c)
  }

  // It happens: a backup that was changed meanwhile is restored, and the rollback reports success.
  lemma ChangedBackupIsRestored(original: string, changed: string, now: string) returns (port: Port, config: Config, files: Files)
    requires original != changed && changed != now && now != original
    ensures var file := ManagedFile("/f", port.hash(original), port.hash(now), "/b", "adopted");
            var ending := RollbackOf(port, config, files, "id");
            && "id" in config.stored && config.stored["id"].managedFiles == [file]
            && files == map["/f" := now, "/b" := changed]
            && ending.result.Ok? && ending.published.Some?
            && ending.files == map["/f" := changed, "/b" := changed] && !HasDigest(port, ending.files, "/f", file.beforeHash)
  {
    port := Port(content => Repeated(if content == original then 'a' else if content == now then 'b' else 'c'), path => "", {}, {});
    var before, after := port.hash(original), port.hash(now);
    var file := ManagedFile("/f", before, after, "/b", "adopted");
    var receipt := Receipt("run", "apply", "", "", "success", false, "", [file], 0, [], [], "");
    config := Config(map["id" := receipt], "", base => "rollback", any => true, true, true, true);
    files := map["/f" := now, "/b" := changed];
    OneFileIsSorted(file);
    OneFileIsPlanned(port, files, file);
    OneFileIsExecuted(port, files, RestoreBackup("/f", "/b"));
    assert Repeated('a')[..1] != Repeated('c')[..1];
  }

  lemma OneFileIsSorted(file: ManagedFile)
    ensures SortFiles([file]) == [file]
  {
    SortFilesSorts([file]);
    var sorted := SortFiles([file]);
    assert |sorted| == |multiset(sorted)| == 1;
    assert sorted[0] in multiset(sorted);
  }

  lemma OneFileIsPlanned(port: Port, files: Files, file: ManagedFile)
    requires PlanFile(port, files, file).Ok?
    ensures PlanAll(port, files, [file]) == Ok([PlanFile(port, files, file).value])
  {
    hide PlanFile;
    var inverse := PlanFile(port, files, file).value;
    assert PlanAll(port, files, [file][1..]) == Ok([]) && [inverse] + [] == [inverse];
  }

  lemma OneFileIsExecuted(port: Port, files: Files, inverse: Inverse)
    requires !inverse.NoOp? && !Fails(port, files, inverse)
    ensures ExecuteAll(port, files, [inverse]) == Execution(Execute(port, files, inverse), [inverse], None)
  {
    hide Fails, Execute;
    var next := Execute(port, files, inverse);
    assert ExecuteAll(port, next, [inverse][1..]) == Execution(next, [], None);
  }

  // Rolling the same receipt back again: created files are found gone and left alone, an adopted file is
  // refused unless what was restored has the digest it had after the change.
  lemma SecondRollback(port: Port, start: Files, files: Files, file: ManagedFile)
    requires file.path !in port.hidden && IsPath(file.path) && IsSha256(file.afterHash)
    requires Restored(port, start, files, file)
    ensures IsCreated(file) ==> PlanFile(port, files, file) == Ok(NoOp(file.path))
    ensures IsAdopted(file) && port.hash(start[file.backup]) != file.afterHash ==> PlanFile(port, files, file).Err?
  {
  }
}
