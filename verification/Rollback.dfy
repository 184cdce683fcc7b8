// Rolling back the managed files of a receipt (internal/app/command_operations.go:189-240, 273-326 and
// internal/app/rollback_preconditions.go).
module Rollback {
  import opened Text
  import opened Sorting

  datatype ManagedFile = ManagedFile(path: string, beforeHash: string, afterHash: string, backup: string, ownership: string)

  // The fields a rollback reads or sets; the rest of a receipt is carried over as it is.
  datatype Receipt = Receipt(
    runId: string,
    command: string,
    startedAt: string,
    finishedAt: string,
    status: string,
    noChange: bool,
    rollbackOf: string,
    managedFiles: seq<ManagedFile>,
    systemTransactions: nat,
    warnings: seq<string>,
    errors: seq<string>,
    rest: string)

  datatype Class = Created | Adopted | PackageOwned

  datatype Live = Missing | Live(hash: string)

  datatype Inverse =
    | RemoveFile(target: string)
    | RestoreBackup(target: string, backup: string)
    | PackageRestore(target: string)
    | NoOp(target: string)

  datatype Conflict =
    | LiveMismatch
    | LiveMissing
    | BackupMissing
    | InvalidBackup
    | BackupNotAllowed
    | InvalidClass
    | InvalidPath
    | InvalidHash

  datatype Error =
    | Conflicts(kind: Conflict, target: string)
    | Unreadable
    | Locked
    | Unobserved(target: string)
    | InvalidReceipt
    | Unexecuted(target: string)
    | Unpublished
    | Unreleased

  // ---- Preconditions (rollback_preconditions.go) ----

  predicate IsPath(path: string) {
    path != "" && path[0] == '/'
  }

  predicate IsHexDigit(c: char) {
    '0' <= c <= '9' || 'a' <= c <= 'f'
  }

  predicate IsSha256(hash: string) {
    |hash| == 64 && forall i :: 0 <= i < 64 ==> IsHexDigit(hash[i])
  }

  // validSHA256
  method CheckSha256(hash: string) returns (valid: bool)
    ensures valid <==> IsSha256(hash)
  {
    if |hash| != 64 { return false; }
    for i := 0 to |hash|
      invariant forall j :: 0 <= j < i ==> IsHexDigit(hash[j])
    {
      var c := hash[i];
      if (c < '0' || c > '9') && (c < 'a' || c > 'f') { return false; }
    }
    return true;
  }

  function ClassOf(file: ManagedFile): Result<Class, Error> {
    if file.ownership == "created" || file.ownership == "configurator" then
      Ok(if file.backup != "" then Adopted else Created)
    else if file.ownership == "adopted" then Ok(Adopted)
    else if file.ownership == "package-owned" then Ok(PackageOwned)
    else Err(Conflicts(InvalidClass, file.path))
  }

  // What the live file is asked for, whatever is done with it.
  function LiveConflict(live: Live, afterHash: string): Option<Conflict> {
    if live.Missing? then Some(LiveMissing)
    else if !IsSha256(live.hash) then Some(InvalidHash)
    else if live.hash != afterHash then Some(LiveMismatch)
    else None
  }

  function PlanInverse(ownership: Class, file: ManagedFile, live: Live): Result<Inverse, Error> {
    if !IsPath(file.path) then Err(Conflicts(InvalidPath, file.path))
    else if !IsSha256(file.afterHash) then Err(Conflicts(InvalidHash, file.path))
    else
      match ownership
      case Created =>
        if live.Missing? then Ok(NoOp(file.path))
        else Guarded(live, file, RemoveFile(file.path))
      case Adopted =>
        if file.backup == "" || file.beforeHash == "" then Err(Conflicts(BackupMissing, file.path))
        else if !IsPath(file.backup) || !IsSha256(file.beforeHash) then Err(Conflicts(InvalidBackup, file.path))
        else Guarded(live, file, RestoreBackup(file.path, file.backup))
      case PackageOwned =>
        if file.backup != "" || file.beforeHash != "" then Err(Conflicts(BackupNotAllowed, file.path))
        else Guarded(live, file, PackageRestore(file.path))
  }

  function Guarded(live: Live, file: ManagedFile, inverse: Inverse): Result<Inverse, Error> {
    var conflict := LiveConflict(live, file.afterHash);
    if conflict.Some? then Err(Conflicts(conflict.value, file.path)) else Ok(inverse)
  }

  // ---- The ports ----

  // Files by path. Some paths cannot be observed and some operations fail, changing nothing. A restored
  // package file gets what its package ships; a backup is copied over its target.
  datatype Port = Port(hash: string -> string, shipped: string -> string, hidden: set<string>, stuck: set<string>)

  type Files = map<string, string>

  function Observe(port: Port, files: Files, path: string): Result<Live, Error> {
    if path in port.hidden then Err(Unobserved(path))
    else Ok(if path in files then Live(port.hash(files[path])) else Missing)
  }

  predicate Fails(port: Port, files: Files, inverse: Inverse) {
    inverse.target in port.stuck || (inverse.RestoreBackup? && inverse.backup !in files)
  }

  function Execute(port: Port, files: Files, inverse: Inverse): Files
    requires !Fails(port, files, inverse)
  {
    match inverse
    case RemoveFile(target) => files - {target}
    case RestoreBackup(target, backup) => files[target := files[backup]]
    case PackageRestore(target) => files[target := port.shipped(target)]
    case NoOp(_) => files
  }

  // ---- The command ----

  predicate FileLess(a: ManagedFile, b: ManagedFile) {
    Less(a.path, b.path)
  }

  // sort.Slice by path; files with one path come in some order, here the order they had.
  function SortFiles(files: seq<ManagedFile>): seq<ManagedFile> {
    SortBy(FileLess, files)
  }

  function PlanFile(port: Port, files: Files, file: ManagedFile): Result<Inverse, Error> {
    match Observe(port, files, file.path)
    case Err(error) => Err(error)
    case Ok(live) =>
      match ClassOf(file)
      case Err(error) => Err(error)
      case Ok(ownership) => PlanInverse(ownership, file, live)
  }

  // Every inverse is planned against the files as they are before any of them runs.
  function PlanAll(port: Port, files: Files, managed: seq<ManagedFile>): Result<seq<Inverse>, Error> {
    if managed == [] then Ok([])
    else
      match PlanFile(port, files, managed[0])
      case Err(error) => Err(error)
      case Ok(inverse) =>
        match PlanAll(port, files, managed[1..])
        case Err(error) => Err(error)
        case Ok(inverses) => Ok([inverse] + inverses)
  }

  predicate AllNoOp(inverses: seq<Inverse>) {
    forall i :: 0 <= i < |inverses| ==> inverses[i].NoOp?
  }

  datatype Execution = Execution(files: Files, executed: seq<Inverse>, failed: Option<string>)

  function ExecuteAll(port: Port, files: Files, inverses: seq<Inverse>): Execution
    decreases |inverses|
  {
    if inverses == [] then Execution(files, [], None)
    else if inverses[0].NoOp? then ExecuteAll(port, files, inverses[1..])
    else if Fails(port, files, inverses[0]) then Execution(files, [], Some(inverses[0].target))
    else
      var rest := ExecuteAll(port, Execute(port, files, inverses[0]), inverses[1..]);
      rest.(executed := [inverses[0]] + rest.executed)
  }

  // What the command is configured with besides the files.
  datatype Config = Config(
    stored: map<string, Receipt>,
    now: string,
    newRunId: Receipt -> string,
    valid: Receipt -> bool,
    lockable: bool,
    releasable: bool,
    publishable: bool)

  function NextReceipt(config: Config, base: Receipt, id: string, noChange: bool): Result<Receipt, Error> {
    var next := base.(runId := config.newRunId(base), command := "rollback", startedAt := config.now,
      finishedAt := config.now, status := "success", noChange := noChange, rollbackOf := id, warnings := [], errors := []);
    if !config.valid(base) || next.runId == "" || next.runId == base.runId || !config.valid(next) then Err(InvalidReceipt)
    else Ok(next)
  }

  datatype Rolled = Rolled(receipt: Receipt, inverses: nat, system: bool)

  // The files and the published receipt a rollback ends with, the inverses it ran, and its result.
  datatype Ending = Ending(files: Files, executed: seq<Inverse>, published: Option<Receipt>, result: Result<Rolled, Error>)

  function RollbackOf(port: Port, config: Config, files: Files, id: string): Ending {
    if id !in config.stored then Ending(files, [], None, Err(Unreadable))
    else if !config.lockable then Ending(files, [], None, Err(Locked))
    else
      var source := config.stored[id];
      match PlanAll(port, files, SortFiles(source.managedFiles))
      case Err(error) => Ending(files, [], None, Err(error))
      case Ok(inverses) =>
        match NextReceipt(config, source, id, AllNoOp(inverses))
        case Err(error) => Ending(files, [], None, Err(error))
        case Ok(next) =>
          var run := ExecuteAll(port, files, inverses);
          if run.failed.Some? then Ending(run.files, run.executed, None, Err(Unexecuted(run.failed.value)))
          else if !config.publishable then Ending(run.files, run.executed, None, Err(Unpublished))
          else
            Ending(run.files, run.executed, Some(next),
                   if config.releasable then Ok(Rolled(next, |inverses|, source.systemTransactions != 0)) else Err(Unreleased))
  }

  // What the loop of PlanInverses has planned so far.
  lemma {:induction false} PlanAllPrefix(port: Port, files: Files, managed: seq<ManagedFile>, k: nat)
    requires k < |managed|
    ensures PlanAll(port, files, managed[..k]).Ok? ==>
      PlanAll(port, files, managed[..k + 1]) ==
        match PlanFile(port, files, managed[k])
        case Err(error) => Err(error)
        case Ok(inverse) => Ok(PlanAll(port, files, managed[..k]).value + [inverse])
    ensures PlanAll(port, files, managed[..k + 1]).Err? ==>
      PlanAll(port, files, managed) == PlanAll(port, files, managed[..k + 1])
  {
    hide PlanFile;
    var rest := managed[1..];
    if k == 0 {
      assert managed[..1] == [managed[0]] && managed[..0] == [];
      assert PlanAll(port, files, managed[..1][1..]) == Ok([]) by { assert managed[..1][1..] == []; }
      if PlanFile(port, files, managed[0]).Ok? {
        assert [PlanFile(port, files, managed[0]).value] + [] == [] + [PlanFile(port, files, managed[0]).value];
      }
    } else {
      PlanAllPrefix(port, files, rest, k - 1);
      assert managed[..k][1..] == rest[..k - 1] && managed[..k + 1][1..] == rest[..k];
      assert managed[..k][0] == managed[..k + 1][0] == managed[0] && rest[k - 1] == managed[k];
      if PlanAll(port, files, managed[..k]).Ok? && PlanFile(port, files, managed[k]).Ok? {
        AppendIsAssociative([PlanFile(port, files, managed[0]).value], PlanAll(port, files, rest[..k - 1]).value,
                            [PlanFile(port, files, managed[k]).value]);
      }
    }
  }

  class RollbackCommand {
    const port: Port
    const config: Config
    var files: Files
    var published: seq<Receipt>
    var held: bool
    ghost var executed: seq<Inverse>

    constructor (port: Port, config: Config, files: Files)
      ensures this.port == port && this.config == config && this.files == files && published == [] && !held
    {
      this.port, this.config, this.files, published, held, executed := port, config, files, [], false, [];
    }

    method PlanInverses(managed: seq<ManagedFile>) returns (result: Result<seq<Inverse>, Error>)
      ensures result == PlanAll(port, files, managed)
    {
      hide PlanInverse;
      var inverses := [];
      assert managed[..0] == [];
      for i := 0 to |managed|
        invariant PlanAll(port, files, managed[..i]) == Ok(inverses)
      {
        PlanAllPrefix(port, files, managed, i);
        var live := Observe(port, files, managed[i].path);
        if live.Err? { return Err(live.error); }
        var ownership := ClassOf(managed[i]);
        if ownership.Err? { return Err(ownership.error); }
        var inverse := PlanInverse(ownership.value, managed[i], live.value);
        if inverse.Err? { return Err(inverse.error); }
        inverses := inverses + [inverse.value];
      }
      assert managed[..|managed|] == managed;
      return Ok(inverses);
    }

    method ExecuteInverses(inverses: seq<Inverse>) returns (failed: Option<string>)
      modifies this`files, this`executed
      ensures ExecuteAll(port, old(files), inverses) == Execution(files, executed, failed)
    {
      hide Execute, Fails;
      executed, failed := [], None;
      ghost var start := files;
      assert inverses[0..] == inverses;
      for i := 0 to |inverses|
        invariant failed.None?
        invariant var rest := ExecuteAll(port, files, inverses[i..]);
                  ExecuteAll(port, start, inverses) == rest.(executed := executed + rest.executed)
      {
        ghost var rest := ExecuteAll(port, files, inverses[i..]);
        assert inverses[i..][0] == inverses[i] && inverses[i..][1..] == inverses[i + 1..];
        var inverse := inverses[i];
        if inverse.NoOp? { continue; }
        if Fails(port, files, inverse) { return Some(inverse.target); }
        files := Execute(port, files, inverse);
        AppendIsAssociative(executed, [inverse], ExecuteAll(port, files, inverses[i + 1..]).executed);
        executed := executed + [inverse];
      }
    }

    // rollbackReceipt: the lock is released whatever happens.
    method RollbackReceipt(id: string) returns (result: Result<Rolled, Error>)
      requires !held
      modifies this
      ensures var ending := RollbackOf(port, config, old(files), id);
              && files == ending.files && executed == ending.executed && result == ending.result
              && published == old(published) + (if ending.published.Some? then [ending.published.value] else [])
      ensures !held
    {
      hide PlanAll, ExecuteAll, SortFiles, NextReceipt, AllNoOp;
      executed := [];
      if id !in config.stored { return Err(Unreadable); }
      var source := config.stored[id];
      if !config.lockable { return Err(Locked); }
      held := true;
      ReleaseComesLast(port, config, files, id);
      result := RollbackLocked(source, id);
      held := false;
      if !config.releasable && result.Ok? { result := Err(Unreleased); }
    }

    method RollbackLocked(source: Receipt, id: string) returns (result: Result<Rolled, Error>)
      requires id in config.stored && config.stored[id] == source && config.lockable && held && executed == []
      modifies this`files, this`executed, this`published
      ensures var ending := RollbackOf(port, config.(releasable := true), old(files), id);
              && files == ending.files && executed == ending.executed && result == ending.result
              && published == old(published) + (if ending.published.Some? then [ending.published.value] else [])
    {
      hide PlanAll, ExecuteAll, SortFiles, NextReceipt, AllNoOp;
      var sorted := SortFiles(source.managedFiles);
      var inverses := PlanInverses(sorted);
      if inverses.Err? { return Err(inverses.error); }
      var next := NextReceipt(config, source, id, AllNoOp(inverses.value));
      SameNextReceipt(config, source, id, AllNoOp(inverses.value));
      if next.Err? { return Err(next.error); }
      var failed := ExecuteInverses(inverses.value);
      if failed.Some? { return Err(Unexecuted(failed.value)); }
      if !config.publishable { return Err(Unpublished); }
      published := published + [next.value];
      return Ok(Rolled(next.value, |inverses.value|, source.systemTransactions != 0));
    }
  }

  lemma ReleaseComesLast(port: Port, config: Config, files: Files, id: string)
    ensures RollbackOf(port, config, files, id) ==
      var ending := RollbackOf(port, config.(releasable := true), files, id);
      if !config.releasable && ending.result.Ok? then ending.(result := Err(Unreleased)) else ending
  {
    hide PlanAll, ExecuteAll, SortFiles, NextReceipt, AllNoOp;
    if id in config.stored {
      SameNextReceipt(config, config.stored[id], id, true);
      SameNextReceipt(config, config.stored[id], id, false);
    }
  }

  lemma SameNextReceipt(config: Config, base: Receipt, id: string, noChange: bool)
    ensures NextReceipt(config.(releasable := true), base, id, noChange) == NextReceipt(config, base, id, noChange)
  {
  }
}
