// When a check reports each of its findings, in terms of what was inventoried and what was observed
// (internal/app/check.go:410-641).
module CheckFindings {
  import opened Text
  import opened Sorting
  import opened Check
  import opened CheckTheorems

  // ---- Membership ----

  lemma {:induction false} FoundForExactly(kind: string, names: seq<string>, judge: string -> Verdict, f: Finding)
    ensures f in FindingsFor(kind, names, judge) <==>
      exists n :: n in names && judge(n).Fault? && f == Finding(kind, judge(n).code, judge(n).category, n, "", "")
  {
    if names != [] {
      var rest, last := names[..|names| - 1], names[|names| - 1];
      FoundForExactly(kind, rest, judge, f);
      assert names == rest + [last];
    }
  }

  // A finding of a kind is about one inventoried name, or, where nothing is inventoried, one observed name.
  lemma KindFoundExactly<E, S>(kind: string, expected: seq<E>, wanted: E -> string, observed: seq<S>, seen: S -> string,
                               judge: (Option<E>, Option<S>) -> Verdict, f: Finding)
    ensures f in KindFindings(kind, expected, wanted, observed, seen, judge) <==>
      && f.subject in (if expected != [] then NamesOf(expected, wanted) else NamesOf(observed, seen))
      && var verdict := judge(First(expected, wanted, f.subject), Sole(observed, seen, f.subject));
         verdict.Fault? && f == Finding(kind, verdict.code, verdict.category, f.subject, "", "")
  {
    hide First, Sole, InOrder;
    var all := if expected != [] then NamesOf(expected, wanted) else NamesOf(observed, seen);
    var names := Names(NamesOf(expected, wanted), NamesOf(observed, seen));
    InOrderIsSorted(PLAIN, Elements(all));
    assert forall n :: n in names <==> n in Elements(names);
    assert forall n :: n in all <==> n in Elements(all);
    FoundForExactly(kind, names, n => judge(First(expected, wanted, n), Sole(observed, seen, n)), f);
  }

  lemma {:induction false} FileFoundExactly(files: seq<FileItem>, observed: seq<FileSeen>, f: Finding)
    ensures f in FileFindings(files, observed) <==> exists i :: 0 <= i < |files| && f in FileFinding(files[i], observed)
  {
    hide FileFinding;
    if files != [] {
      var rest := files[..|files| - 1];
      FileFoundExactly(rest, observed, f);
      if i :| 0 <= i < |files| && f in FileFinding(files[i], observed) {
        if i < |rest| { assert f in FileFinding(rest[i], observed); }
      }
      if i :| 0 <= i < |rest| && f in FileFinding(rest[i], observed) { assert files[i] == rest[i]; }
    }
  }

  lemma ReportHolds(request: Request, snapshot: Snapshot, f: Finding)
    ensures f in ReportOf(request, snapshot).findings <==> f in AllFindings(request, snapshot)
  {
    hide AllFindings, FindingLess, WeakOrder, InOrderBy;
    FindingOrder();
    SortBySorts(FindingLess, AllFindings(request, snapshot));
    var sorted := ReportOf(request, snapshot).findings;
    assert f in sorted <==> f in multiset(sorted);
    assert f in AllFindings(request, snapshot) <==> f in multiset(AllFindings(request, snapshot));
  }

  lemma KindsDiffer()
    ensures FILE == "managed-file" && VALIDATOR == "validator" && PACKAGE == "package" && SERVICE == "service"
    ensures BOOT == "boot" && PAM == "pam" && FAILED_UNIT == "failed-unit" && PACMAN == "pacman-integrity"
    ensures |FILE| == 12 && |VALIDATOR| == 9 && |PACKAGE| == 7 == |SERVICE| && |BOOT| == 4 && |PAM| == 3 && |FAILED_UNIT| == 11
    ensures |PACMAN| == 16 && PACKAGE[0] == 'p' && SERVICE[0] == 's'
  {
  }

  ghost predicate Reported(request: Request, snapshot: Snapshot, f: Finding) {
    f in ReportOf(request, snapshot).findings
  }

  // A finding of the report is in the part of its kind.
  lemma ReportedByKind(request: Request, snapshot: Snapshot, f: Finding)
    ensures Reported(request, snapshot, f) <==>
      || (f.kind == FILE && f in FileFindings(request.files, snapshot.files))
      || (f.kind == VALIDATOR && f in KindFindings(VALIDATOR, request.validators, Self, snapshot.validators, ValidatorName, ValidatorVerdict))
      || (f.kind == PACKAGE && f in KindFindings(PACKAGE, request.packages, PackageName, snapshot.packages, PackageSeenName, JudgePackage))
      || (f.kind == SERVICE && f in KindFindings(SERVICE, request.services, ServiceName, snapshot.services, ServiceSeenName, JudgeService))
      || (f.kind == BOOT && f in KindFindings(BOOT, request.boot, ConfigName, snapshot.boot, ConfigSeenName, BootVerdict))
      || (f.kind == PAM && f in KindFindings(PAM, request.pam, ConfigName, snapshot.pam, ConfigSeenName, PamVerdict))
      || (f.kind == FAILED_UNIT && f in UnitFindings(InOrder(PLAIN, Elements(snapshot.failedUnits))))
      || (f.kind == PACMAN && f in KindFindings(PACMAN, request.pacman, Self, snapshot.pacman, PacmanName, PacmanVerdict))
  {
    hide FileFindings, KindFindings, UnitFindings, ReportOf, ValidatorVerdict, JudgePackage, JudgeService, BootVerdict, PamVerdict,
      PacmanVerdict, First, Sole;
    ReportHolds(request, snapshot, f);
    KindFoundExactly(VALIDATOR, request.validators, Self, snapshot.validators, ValidatorName, ValidatorVerdict, f);
    KindFoundExactly(PACKAGE, request.packages, PackageName, snapshot.packages, PackageSeenName, JudgePackage, f);
    KindFoundExactly(SERVICE, request.services, ServiceName, snapshot.services, ServiceSeenName, JudgeService, f);
    KindFoundExactly(BOOT, request.boot, ConfigName, snapshot.boot, ConfigSeenName, BootVerdict, f);
    KindFoundExactly(PAM, request.pam, ConfigName, snapshot.pam, ConfigSeenName, PamVerdict, f);
    KindFoundExactly(PACMAN, request.pacman, Self, snapshot.pacman, PacmanName, PacmanVerdict, f);
    OwnKinds(request, snapshot, f);
  }

  lemma OwnKinds(request: Request, snapshot: Snapshot, f: Finding)
    ensures f in FileFindings(request.files, snapshot.files) ==> f.kind == FILE
    ensures f in UnitFindings(InOrder(PLAIN, Elements(snapshot.failedUnits))) ==> f.kind == FAILED_UNIT
  {
    hide JudgeFile, InOrder;
    FileFoundExactly(request.files, snapshot.files, f);
  }

  // ---- What each finding means ----

  function About(kind: string, code: string, category: string, name: string): Finding {
    Finding(kind, code, category, name, "", "")
  }

  lemma SoleExactly<T(!new)>(values: seq<T>, name: T -> string, n: string)
    ensures forall value :: Once(values, name, n, value) <==> Sole(values, name, n) == Some(value)
  {
    hide Once, Sole;
    forall value
      ensures Once(values, name, n, value) <==> Sole(values, name, n) == Some(value)
    {
      SoleIsOnce(values, name, n, value);
    }
  }

  // A validator that was not observed once and clearly is unknown; one that was and failed has drifted.
  lemma ValidatorReported(request: Request, snapshot: Snapshot, name: string)
    requires name in request.validators
    ensures Reported(request, snapshot, About("validator", "validator-unknown", "unknown", name)) <==>
      !exists seen :: Once(snapshot.validators, ValidatorName, name, seen) && (seen.status.Passed? || seen.status.Failed?)
    ensures Reported(request, snapshot, About("validator", "validator-failed", "desired-state", name)) <==>
      exists seen :: Once(snapshot.validators, ValidatorName, name, seen) && seen.status.Failed?
  {
    hide Once, Sole, First, Reported, KindFindings;
    KindsDiffer();
    CodesDiffer();
    var unknown, failed := About(VALIDATOR, "validator-unknown", UNKNOWN, name), About(VALIDATOR, "validator-failed", DESIRED_STATE, name);
    ReportedByKind(request, snapshot, unknown);
    ReportedByKind(request, snapshot, failed);
    KindFoundExactly(VALIDATOR, request.validators, Self, snapshot.validators, ValidatorName, ValidatorVerdict, unknown);
    KindFoundExactly(VALIDATOR, request.validators, Self, snapshot.validators, ValidatorName, ValidatorVerdict, failed);
    IsNamed(request.validators, Self, name);
    SoleExactly(snapshot.validators, ValidatorName, name);
  }

  lemma IsNamed<E>(expected: seq<E>, wanted: E -> string, item: E)
    requires item in expected
    ensures wanted(item) in NamesOf(expected, wanted) && expected != []
  {
    var i :| 0 <= i < |expected| && expected[i] == item;
    assert NamesOf(expected, wanted)[i] == wanted(item);
  }

  lemma CodesDiffer()
    ensures |"validator-unknown"| == 17 && |"validator-failed"| == 16
    ensures |"package-unknown"| == 15 == |"package-missing"| == |"package-version"|
    ensures "package-unknown"[8] == 'u' && "package-missing"[8] == 'm' && "package-version"[8] == 'v'
    ensures |"service-unknown"| == 15 && |"service-state"| == 13
    ensures |"pacman-integrity-unknown"| == 24 && |"pacman-integrity"| == 16
    ensures UNKNOWN == "unknown" && DESIRED_STATE == "desired-state" && |UNKNOWN| == 7 && |DESIRED_STATE| == 13
  {
  }

  // A package that was not observed once and clearly is unknown; one that was may be missing, or, present,
  // in another version than the first entry under its name asks for, or said to be at fault.
  lemma PackageReported(request: Request, snapshot: Snapshot, i: nat)
    requires i < |request.packages|
    ensures var want := Leader(request.packages, PackageName, i); var name := want.name;
      && (Reported(request, snapshot, About("package", "package-unknown", "unknown", name)) <==>
            !exists seen :: Once(snapshot.packages, PackageSeenName, name, seen) && !seen.status.Unknown?)
      && (Reported(request, snapshot, About("package", "package-missing", "desired-state", name)) <==>
            exists seen :: Once(snapshot.packages, PackageSeenName, name, seen) && !seen.status.Unknown? && !seen.present)
      && (Reported(request, snapshot, About("package", "package-version", "desired-state", name)) <==>
            exists seen :: (
              Once(snapshot.packages, PackageSeenName, name, seen) && !seen.status.Unknown? && seen.present
              && (seen.status.Failed? || (want.version != "" && seen.version != want.version))))
  {
    hide Once, Sole, First, Reported, KindFindings;
    KindsDiffer();
    CodesDiffer();
    var want := Leader(request.packages, PackageName, i);
    var unknown, missing := About(PACKAGE, "package-unknown", UNKNOWN, want.name), About(PACKAGE, "package-missing", DESIRED_STATE, want.name);
    var version := About(PACKAGE, "package-version", DESIRED_STATE, want.name);
    ReportedByKind(request, snapshot, unknown);
    ReportedByKind(request, snapshot, missing);
    ReportedByKind(request, snapshot, version);
    KindFoundExactly(PACKAGE, request.packages, PackageName, snapshot.packages, PackageSeenName, JudgePackage, unknown);
    KindFoundExactly(PACKAGE, request.packages, PackageName, snapshot.packages, PackageSeenName, JudgePackage, missing);
    KindFoundExactly(PACKAGE, request.packages, PackageName, snapshot.packages, PackageSeenName, JudgePackage, version);
    IsNamed(request.packages, PackageName, want);
    SoleExactly(snapshot.packages, PackageSeenName, want.name);
  }

  // A service that was not observed once and clearly is unknown; one that was may not be in the state that
  // the first entry under its name requires.
  lemma ServiceReported(request: Request, snapshot: Snapshot, i: nat)
    requires i < |request.services|
    ensures var want := Leader(request.services, ServiceName, i); var name := want.unit;
      && (Reported(request, snapshot, About("service", "service-unknown", "unknown", name)) <==>
            !exists seen :: Once(snapshot.services, ServiceSeenName, name, seen) && !seen.status.Unknown?)
      && (Reported(request, snapshot, About("service", "service-state", "desired-state", name)) <==>
            exists seen :: (
              Once(snapshot.services, ServiceSeenName, name, seen) && !seen.status.Unknown?
              && (!seen.installed || seen.status.Failed? || (want.requireEnabled && !seen.enabled) || (want.requireActive && !seen.active))))
  {
    hide Once, Sole, First, Reported, KindFindings;
    KindsDiffer();
    CodesDiffer();
    var want := Leader(request.services, ServiceName, i);
    var unknown, state := About(SERVICE, "service-unknown", UNKNOWN, want.unit), About(SERVICE, "service-state", DESIRED_STATE, want.unit);
    ReportedByKind(request, snapshot, unknown);
    ReportedByKind(request, snapshot, state);
    KindFoundExactly(SERVICE, request.services, ServiceName, snapshot.services, ServiceSeenName, JudgeService, unknown);
    KindFoundExactly(SERVICE, request.services, ServiceName, snapshot.services, ServiceSeenName, JudgeService, state);
    IsNamed(request.services, ServiceName, want);
    SoleExactly(snapshot.services, ServiceSeenName, want.unit);
  }

  ghost predicate Configured(observed: seq<ConfigSeen>, name: string, seen: ConfigSeen) {
    Once(observed, ConfigSeenName, name, seen) && !seen.status.Unknown?
  }

  // A boot configuration has drifted if its observation failed, or both hashes are there and differ; it is
  // unknown if it was not observed once and clearly, or, not having failed, lacks one of the hashes.
  lemma BootReported(request: Request, snapshot: Snapshot, i: nat)
    requires i < |request.boot|
    ensures var want := Leader(request.boot, ConfigName, i); var name := want.name;
      && (Reported(request, snapshot, About("boot", "boot-unknown", "unknown", name)) <==>
            !exists seen :: Configured(snapshot.boot, name, seen) && (seen.status.Failed? || (want.desiredHash != "" && seen.liveHash != "")))
      && (Reported(request, snapshot, About("boot", "boot-drift", "desired-state", name)) <==>
            exists seen :: (
              Configured(snapshot.boot, name, seen)
              && (seen.status.Failed? || (want.desiredHash != "" && seen.liveHash != "" && seen.liveHash != want.desiredHash))))
  {
    hide Once, Sole, First, Reported, KindFindings;
    KindsDiffer();
    CodesDiffer();
    ConfigCodes();
    var want := Leader(request.boot, ConfigName, i);
    var unknown, drift := About(BOOT, "boot-unknown", UNKNOWN, want.name), About(BOOT, "boot-drift", DESIRED_STATE, want.name);
    ReportedByKind(request, snapshot, unknown);
    ReportedByKind(request, snapshot, drift);
    KindFoundExactly(BOOT, request.boot, ConfigName, snapshot.boot, ConfigSeenName, BootVerdict, unknown);
    KindFoundExactly(BOOT, request.boot, ConfigName, snapshot.boot, ConfigSeenName, BootVerdict, drift);
    IsNamed(request.boot, ConfigName, want);
    SoleExactly(snapshot.boot, ConfigSeenName, want.name);
  }

  // The same for PAM configurations.
  lemma PamReported(request: Request, snapshot: Snapshot, i: nat)
    requires i < |request.pam|
    ensures var want := Leader(request.pam, ConfigName, i); var name := want.name;
      && (Reported(request, snapshot, About("pam", "pam-unknown", "unknown", name)) <==>
            !exists seen :: Configured(snapshot.pam, name, seen) && (seen.status.Failed? || (want.desiredHash != "" && seen.liveHash != "")))
      && (Reported(request, snapshot, About("pam", "pam-drift", "desired-state", name)) <==>
            exists seen :: (
              Configured(snapshot.pam, name, seen)
              && (seen.status.Failed? || (want.desiredHash != "" && seen.liveHash != "" && seen.liveHash != want.desiredHash))))
  {
    hide Once, Sole, First, Reported, KindFindings;
    KindsDiffer();
    CodesDiffer();
    ConfigCodes();
    var want := Leader(request.pam, ConfigName, i);
    var unknown, drift := About(PAM, "pam-unknown", UNKNOWN, want.name), About(PAM, "pam-drift", DESIRED_STATE, want.name);
    ReportedByKind(request, snapshot, unknown);
    ReportedByKind(request, snapshot, drift);
    KindFoundExactly(PAM, request.pam, ConfigName, snapshot.pam, ConfigSeenName, PamVerdict, unknown);
    KindFoundExactly(PAM, request.pam, ConfigName, snapshot.pam, ConfigSeenName, PamVerdict, drift);
    IsNamed(request.pam, ConfigName, want);
    SoleExactly(snapshot.pam, ConfigSeenName, want.name);
  }

  lemma ConfigCodes()
    ensures BOOT + "-unknown" == "boot-unknown" && BOOT + "-drift" == "boot-drift"
    ensures PAM + "-unknown" == "pam-unknown" && PAM + "-drift" == "pam-drift"
    ensures |"boot-unknown"| == 12 && |"boot-drift"| == 10 && |"pam-unknown"| == 11 && |"pam-drift"| == 9
  {
  }

  // A package manager check that was not observed once and clearly is unknown; one that failed, or says
  // nothing but that it was not clean, has drifted.
  lemma IntegrityReported(request: Request, snapshot: Snapshot, name: string)
    requires name in request.pacman
    ensures Reported(request, snapshot, About("pacman-integrity", "pacman-integrity-unknown", "unknown", name)) <==>
      !exists seen :: Once(snapshot.pacman, PacmanName, name, seen) && !seen.status.Unknown?
    ensures Reported(request, snapshot, About("pacman-integrity", "pacman-integrity", "desired-state", name)) <==>
      exists seen :: Once(snapshot.pacman, PacmanName, name, seen) && (seen.status.Failed? || (seen.status.Unstated? && !seen.clean))
  {
    hide Once, Sole, First, Reported, KindFindings;
    KindsDiffer();
    CodesDiffer();
    var unknown, failed := About(PACMAN, "pacman-integrity-unknown", UNKNOWN, name), About(PACMAN, "pacman-integrity", DESIRED_STATE, name);
    ReportedByKind(request, snapshot, unknown);
    ReportedByKind(request, snapshot, failed);
    KindFoundExactly(PACMAN, request.pacman, Self, snapshot.pacman, PacmanName, PacmanVerdict, unknown);
    KindFoundExactly(PACMAN, request.pacman, Self, snapshot.pacman, PacmanName, PacmanVerdict, failed);
    IsNamed(request.pacman, Self, name);
    SoleExactly(snapshot.pacman, PacmanName, name);
  }

  // ---- Managed files and failed units ----

  function AboutFile(file: FileItem, code: string, category: string): Finding {
    Finding("managed-file", code, category, file.path, file.path, file.backup)
  }

  ghost predicate SeenOnce(file: FileItem, observed: seq<FileSeen>, seen: FileSeen) {
    Once(observed, FileName, file.path, seen)
  }

  // Observed safely with some hash, and somebody owns the file.
  ghost predicate Owned(file: FileItem, seen: FileSeen) {
    seen.state.Observed? && Live(seen) != "" && (file.ownership != "" || file.owned || seen.ownership != "")
  }

  // Changed or removed after it was applied: the hash recorded then is not the live one.
  ghost predicate ChangedAfterApply(file: FileItem, seen: FileSeen) {
    Recorded(file) != "" && (seen.state.Missing? || (Owned(file, seen) && Live(seen) != Recorded(file)))
  }

  // Nobody owns a file that is there.
  ghost predicate Unmanaged(file: FileItem, seen: FileSeen) {
    seen.state.Observed? && Live(seen) != "" && !Owned(file, seen)
  }

  // Not, or no longer, as desired, though it is as it was applied if it was.
  ghost predicate NotDesired(file: FileItem, seen: FileSeen) {
    && file.desiredHash != ""
    && (if seen.state.Missing? then Recorded(file) == ""
        else Owned(file, seen) && (Recorded(file) == "" || Live(seen) == Recorded(file)) && Live(seen) != file.desiredHash)
  }

  // Which finding a managed file gives: at most one, of the first of these categories that fits.
  lemma FileFindingIs(file: FileItem, observed: seq<FileSeen>, f: Finding)
    ensures f in FileFinding(file, observed) <==>
      || (f == AboutFile(file, "observer-unavailable", "unknown") && !exists seen :: SeenOnce(file, observed, seen))
      || exists seen :: (
           SeenOnce(file, observed, seen)
           && f == (if ChangedAfterApply(file, seen) then AboutFile(file, "managed-file-post-apply", "post-apply")
                    else if Unmanaged(file, seen) then AboutFile(file, "managed-file-unmanaged-conflict", "unmanaged-conflict")
                    else if NotDesired(file, seen) then AboutFile(file, "managed-file-desired-state", "desired-state")
                    else AboutFile(file, "managed-file-unknown", "unknown"))
           && !IsDesired(file, seen))
  {
    hide Once, Sole;
    SoleExactly(observed, FileName, file.path);
    FileCodes();
    var found := Sole(observed, FileName, file.path);
    if found.Some? {
      CategoryIs(file, found.value);
      assert SeenOnce(file, observed, found.value);
      assert forall seen :: SeenOnce(file, observed, seen) ==> seen == found.value;
    } else {
      assert forall seen :: !SeenOnce(file, observed, seen);
    }
  }

  lemma FileCodes()
    ensures UNAVAILABLE == "observer-unavailable" && FILE == "managed-file"
    ensures POST_APPLY == "post-apply" && UNMANAGED == "unmanaged-conflict" && DESIRED_STATE == "desired-state" && UNKNOWN == "unknown"
    ensures "managed-file-" + POST_APPLY == "managed-file-post-apply" && "managed-file-" + UNKNOWN == "managed-file-unknown"
    ensures "managed-file-" + UNMANAGED == "managed-file-unmanaged-conflict" && "managed-file-" + DESIRED_STATE == "managed-file-desired-state"
  {
  }

  lemma CategoryIs(file: FileItem, seen: FileSeen)
    ensures ClassOf(file, seen) ==
      if IsDesired(file, seen) then NONE
      else if ChangedAfterApply(file, seen) then POST_APPLY
      else if Unmanaged(file, seen) then UNMANAGED
      else if NotDesired(file, seen) then DESIRED_STATE
      else UNKNOWN
    ensures NONE != POST_APPLY && NONE != UNMANAGED && NONE != DESIRED_STATE && NONE != UNKNOWN
  {
    assert |NONE| == 4 && |POST_APPLY| == 10 && |UNMANAGED| == 18 && |DESIRED_STATE| == 13 && |UNKNOWN| == 7;
  }

  // The report holds the finding of every managed file.
  lemma FileReported(request: Request, snapshot: Snapshot, f: Finding)
    requires f.kind == "managed-file"
    ensures Reported(request, snapshot, f) <==> exists i :: 0 <= i < |request.files| && f in FileFinding(request.files[i], snapshot.files)
  {
    hide Reported, FileFinding, KindFindings, UnitFindings;
    KindsDiffer();
    ReportedByKind(request, snapshot, f);
    FileFoundExactly(request.files, snapshot.files, f);
  }

  // Every unit that failed is reported, one without a name as unknown.
  lemma UnitReported(request: Request, snapshot: Snapshot, unit: string)
    ensures Reported(request, snapshot, About("failed-unit", "failed-unit", "desired-state", unit)) <==>
      unit != "" && unit in snapshot.failedUnits
    ensures Reported(request, snapshot, About("failed-unit", "failed-unit-unknown", "unknown", "failed-unit")) <==> "" in snapshot.failedUnits
  {
    hide Reported, KindFindings, FileFindings, InOrder;
    KindsDiffer();
    UnitCodes();
    var failed, unknown := About(FAILED_UNIT, "failed-unit", DESIRED_STATE, unit), About(FAILED_UNIT, "failed-unit-unknown", UNKNOWN, "failed-unit");
    ReportedByKind(request, snapshot, failed);
    ReportedByKind(request, snapshot, unknown);
    var units := InOrder(PLAIN, Elements(snapshot.failedUnits));
    InOrderIsSorted(PLAIN, Elements(snapshot.failedUnits));
    UnitFoundExactly(units, failed);
    UnitFoundExactly(units, unknown);
    assert forall u :: u in units <==> u in Elements(units);
    assert forall u :: u in snapshot.failedUnits <==> u in Elements(snapshot.failedUnits);
  }

  lemma UnitFoundExactly(units: seq<string>, f: Finding)
    ensures f in UnitFindings(units) <==> exists u :: u in units && f == JudgeUnit(u)
  {
    hide JudgeUnit;
    var all := UnitFindings(units);
    if f in all {
      var i :| 0 <= i < |all| && all[i] == f;
      assert units[i] in units;
    }
    if u :| u in units && f == JudgeUnit(u) {
      var i :| 0 <= i < |units| && units[i] == u;
      assert all[i] == f;
    }
  }

  lemma UnitCodes()
    ensures FAILED_UNIT == "failed-unit" && DESIRED_STATE == "desired-state" && UNKNOWN == "unknown"
    ensures |"failed-unit"| == 11 && |"failed-unit-unknown"| == 19
  {
  }

  // ---- Warnings, and the report without a snapshot ----

  // A warning is about a configuration left aside by the package manager or about fingerprints, and the
  // warnings stand in order.
  lemma WarningIs(request: Request, snapshot: Snapshot, w: string)
    ensures w in ReportOf(request, snapshot).warnings <==>
      || (exists path :: path in snapshot.pacnew && path != "" && w == "pacnew:" + path)
      || ("" in snapshot.pacnew && w == "pacnew:unknown")
      || (snapshot.fingerprint.Absent? && w == "fingerprint-enrollment-absent")
      || ((snapshot.fingerprint.NotKnown? || (snapshot.fingerprint.Unset? && request.fingerprint)) && w == "fingerprint-enrollment-unknown")
    ensures forall i, j :: 0 <= i < j < |ReportOf(request, snapshot).warnings| ==>
      Less(ReportOf(request, snapshot).warnings[i], ReportOf(request, snapshot).warnings[j])
  {
    hide AllFindings, Warnings, InOrder;
    WarningsInOrder(Warnings(request, snapshot), w);
    WarningMembers(request, snapshot, w);
  }

  lemma WarningsInOrder(warnings: set<string>, w: string)
    ensures w in InOrder(PLAIN, warnings) <==> w in warnings
    ensures forall i, j :: 0 <= i < j < |InOrder(PLAIN, warnings)| ==> Less(InOrder(PLAIN, warnings)[i], InOrder(PLAIN, warnings)[j])
  {
    hide InOrder;
    InOrderIsSorted(PLAIN, warnings);
    assert w in InOrder(PLAIN, warnings) <==> w in Elements(InOrder(PLAIN, warnings));
  }

  lemma WarningMembers(request: Request, snapshot: Snapshot, w: string)
    ensures w in Warnings(request, snapshot) <==>
      || (exists path :: path in snapshot.pacnew && path != "" && w == "pacnew:" + path)
      || ("" in snapshot.pacnew && w == "pacnew:unknown")
      || (snapshot.fingerprint.Absent? && w == "fingerprint-enrollment-absent")
      || ((snapshot.fingerprint.NotKnown? || (snapshot.fingerprint.Unset? && request.fingerprint)) && w == "fingerprint-enrollment-unknown")
  {
    assert "pacnew:" + "unknown" == "pacnew:unknown";
    assert forall path :: PacnewWarning(path) == "pacnew:" + (if path == "" then "unknown" else path);
  }

  // Without a snapshot everything that was to be checked is unknown.
  ghost predicate IsUnknown(request: Request, f: Finding) {
    || (exists i :: 0 <= i < |request.files| && f == AboutFile(request.files[i], "observer-unavailable", "unknown"))
    || (f.subject in request.validators && f == About("validator", "validator-unknown", "unknown", f.subject))
    || (exists i :: 0 <= i < |request.packages| && f == About("package", "package-unknown", "unknown", request.packages[i].name))
    || (exists i :: 0 <= i < |request.services| && f == About("service", "service-unknown", "unknown", request.services[i].unit))
    || (exists i :: 0 <= i < |request.boot| && f == About("boot", "boot-unknown", "unknown", request.boot[i].name))
    || (exists i :: 0 <= i < |request.pam| && f == About("pam", "pam-unknown", "unknown", request.pam[i].name))
    || (request.failedUnits && f == About("failed-unit", "failed-unit-unknown", "unknown", "failed-units"))
    || (f.subject in request.pacman && f == About("pacman-integrity", "pacman-integrity-unknown", "unknown", f.subject))
    || (request.pacnew && f == About("pacnew", "pacnew-unknown", "unknown", "pacnew"))
  }

  // The report after a failed observation: all of that, and what there is to say of the observer if nothing is.
  lemma UnavailableReported(request: Request, f: Finding)
    ensures f in FailClosed(request).findings <==>
      || IsUnknown(request, f)
      || (f == About("observation", "observer-unavailable", "unknown", "check-observer")
          && !request.fingerprint && forall g :: !IsUnknown(request, g))
    ensures FailClosed(request).warnings == if request.fingerprint then ["fingerprint-enrollment-unknown"] else []
  {
    hide UnavailableFindings, IsUnknown, FindingLess, WeakOrder, InOrderBy, InOrder;
    forall g
      ensures g in UnavailableFindings(request) <==> IsUnknown(request, g)
    {
      UnknownMembers(request, g);
    }
    var findings := UnavailableFindings(request);
    assert findings == [] <==> forall g :: !IsUnknown(request, g) by {
      if findings != [] { assert IsUnknown(request, findings[0]); }
    }
    var warnings := if request.fingerprint then {"fingerprint-enrollment-unknown"} else {};
    assert warnings == {} <==> !request.fingerprint by {
      if request.fingerprint { assert "fingerprint-enrollment-unknown" in warnings; }
    }
    var all := if findings == [] && warnings == {} then [About("observation", "observer-unavailable", "unknown", "check-observer")] else findings;
    ObserverCodes();
    FindingOrder();
    SortBySorts(FindingLess, all);
    var sorted := SortBy(FindingLess, all);
    assert f in sorted <==> f in multiset(sorted);
    assert f in all <==> f in multiset(all);
    OneInOrder("fingerprint-enrollment-unknown");
  }

  lemma ObserverCodes()
    ensures OBSERVATION == "observation" && UNAVAILABLE == "observer-unavailable" && UNKNOWN == "unknown" && PACNEW == "pacnew"
  {
  }

  lemma OneInOrder(w: string)
    ensures InOrder(PLAIN, {w}) == [w] && InOrder(PLAIN, {}) == []
  {
    InOrderIsSorted(PLAIN, {w});
    InOrderIsSorted(PLAIN, {});
  }

  lemma UnavailableExactly(kind: string, code: string, subjects: seq<string>, f: Finding)
    ensures f in Unavailable(kind, code, subjects) <==> f.subject in subjects && f == About(kind, code, "unknown", f.subject)
  {
    ObserverCodes();
    var all := Unavailable(kind, code, subjects);
    if k :| 0 <= k < |subjects| && subjects[k] == f.subject && f == About(kind, code, "unknown", f.subject) { assert all[k] == f; }
  }

  lemma UnavailableNames<E>(kind: string, code: string, expected: seq<E>, wanted: E -> string, f: Finding)
    ensures f in Unavailable(kind, code, NamesOf(expected, wanted)) <==>
      exists i :: 0 <= i < |expected| && f == About(kind, code, "unknown", wanted(expected[i]))
  {
    var names := NamesOf(expected, wanted);
    UnavailableExactly(kind, code, names, f);
    if i :| 0 <= i < |expected| && f == About(kind, code, "unknown", wanted(expected[i])) { assert names[i] == f.subject; }
  }

  lemma UnavailableFilesAre(files: seq<FileItem>, f: Finding)
    ensures f in UnavailableFiles(files) <==>
      exists i :: 0 <= i < |files| && f == AboutFile(files[i], "observer-unavailable", "unknown")
  {
    ObserverCodes();
    FileCodes();
    var all := UnavailableFiles(files);
    if i :| 0 <= i < |files| && f == AboutFile(files[i], "observer-unavailable", "unknown") { assert all[i] == f; }
  }

  lemma UnknownMembers(request: Request, f: Finding)
    ensures f in UnavailableFindings(request) <==> IsUnknown(request, f)
  {
    hide InOrder, Unavailable, UnavailableFiles, NamesOf;
    ObserverCodes();
    KindsDiffer();
    var checks := InOrder(PLAIN, Elements(request.pacman));
    InOrderIsSorted(PLAIN, Elements(request.pacman));
    assert forall n :: n in checks <==> n in Elements(checks);
    UnavailableFilesAre(request.files, f);
    UnavailableExactly(VALIDATOR, "validator-unknown", request.validators, f);
    UnavailableNames(PACKAGE, "package-unknown", request.packages, PackageName, f);
    UnavailableNames(SERVICE, "service-unknown", request.services, ServiceName, f);
    UnavailableNames(BOOT, "boot-unknown", request.boot, ConfigName, f);
    UnavailableNames(PAM, "pam-unknown", request.pam, ConfigName, f);
    UnavailableExactly(PACMAN, "pacman-integrity-unknown", checks, f);
  }

  // ---- The order of findings ----

  ghost predicate FirstLess(a: seq<string>, b: seq<string>) {
    exists k :: FirstAt(a, b, k)
  }

  ghost predicate FirstAt(a: seq<string>, b: seq<string>, k: int) {
    0 <= k < |a| == |b| && Less(a[k], b[k]) && forall j :: 0 <= j < k ==> a[j] == b[j]
  }

  function FieldsOf(f: Finding): seq<string> {
    [f.kind, f.path, f.subject, f.category, f.code, f.backup]
  }

  // NUL comes before every other character, so that joined fields compare one by one.
  lemma {:induction false} FieldsCompare(a: string, b: string, x: string, y: string)
    requires NulFree(a) && NulFree(b)
    ensures Less(a + ("\0" + x), b + ("\0" + y)) <==> Less(a, b) || (a == b && Less(x, y))
    decreases |a|
  {
    var s, t := a + ("\0" + x), b + ("\0" + y);
    if a == "" || b == "" {
      assert ("\0" + x)[1..] == x && ("\0" + y)[1..] == y;
      assert a == "" ==> s == "\0" + x;
      assert b == "" ==> t == "\0" + y;
    } else {
      assert s[1..] == a[1..] + ("\0" + x) && t[1..] == b[1..] + ("\0" + y);
      assert a == [a[0]] + a[1..] && b == [b[0]] + b[1..];
      FieldsCompare(a[1..], b[1..], x, y);
    }
  }

  lemma FirstLessStep(h: string, t: seq<string>, i: string, u: seq<string>)
    requires |t| == |u|
    ensures FirstLess([h] + t, [i] + u) <==> Less(h, i) || (h == i && FirstLess(t, u))
  {
    hide Less;
    var a, b := [h] + t, [i] + u;
    if k :| FirstAt(a, b, k) {
      if k > 0 {
        assert a[0] == b[0];
        forall j | 0 <= j < k - 1 ensures t[j] == u[j] { assert a[j + 1] == b[j + 1]; }
        assert FirstAt(t, u, k - 1);
      }
    }
    if Less(h, i) { assert FirstAt(a, b, 0); }
    if h == i && FirstLess(t, u) {
      var k :| FirstAt(t, u, k);
      assert FirstAt(a, b, k + 1);
    }
  }

  // One finding comes before another exactly if it is less in the first field in which they differ.
  lemma FindingsCompare(f: Finding, g: Finding)
    requires Plain(f) && Plain(g)
    ensures FindingLess(f, g) <==> FirstLess(FieldsOf(f), FieldsOf(g))
  {
    hide NulFree, Less, FirstLess;
    var f5, g5 := f.backup + ("\0" + SEVERITY), g.backup + ("\0" + SEVERITY);
    var f4, g4 := f.code + ("\0" + f5), g.code + ("\0" + g5);
    var f3, g3 := f.category + ("\0" + f4), g.category + ("\0" + g4);
    var f2, g2 := f.subject + ("\0" + f3), g.subject + ("\0" + g3);
    var f1, g1 := f.path + ("\0" + f2), g.path + ("\0" + g2);
    FieldsCompare(f.kind, g.kind, f1, g1);
    FieldsCompare(f.path, g.path, f2, g2);
    FieldsCompare(f.subject, g.subject, f3, g3);
    FieldsCompare(f.category, g.category, f4, g4);
    FieldsCompare(f.code, g.code, f5, g5);
    FieldsCompare(f.backup, g.backup, SEVERITY, SEVERITY);
    LessIsStrictTotal(SEVERITY, SEVERITY);
    FirstLessChain(FieldsOf(f), FieldsOf(g));
  }

  lemma FirstLessChain(a: seq<string>, b: seq<string>)
    requires |a| == 6 == |b|
    ensures FirstLess(a, b) <==>
      Less(a[0], b[0]) || (a[0] == b[0] && (Less(a[1], b[1]) || (a[1] == b[1] && (Less(a[2], b[2]) || (a[2] == b[2] && (
      Less(a[3], b[3]) || (a[3] == b[3] && (Less(a[4], b[4]) || (a[4] == b[4] && Less(a[5], b[5]))))))))))
  {
    hide FirstLess, Less;
    NothingIsLess();
    assert a[6..] == [] && b[6..] == [];
    FirstLessAt(a, b, 5);
    FirstLessAt(a, b, 4);
    FirstLessAt(a, b, 3);
    FirstLessAt(a, b, 2);
    FirstLessAt(a, b, 1);
    FirstLessAt(a, b, 0);
    assert a[0..] == a && b[0..] == b;
  }

  lemma NothingIsLess()
    ensures !FirstLess([], [])
  {
  }

  lemma FirstLessAt(a: seq<string>, b: seq<string>, k: nat)
    requires |a| == |b| && k < |a|
    ensures FirstLess(a[k..], b[k..]) <==> Less(a[k], b[k]) || (a[k] == b[k] && FirstLess(a[k + 1..], b[k + 1..]))
  {
    hide FirstLess, Less;
    FirstLessStep(a[k], a[k + 1..], b[k], b[k + 1..]);
    assert a[k..] == [a[k]] + a[k + 1..] && b[k..] == [b[k]] + b[k + 1..];
  }

  // A report lists its findings by kind, path, subject, category, code and backup.
  lemma FindingsStandInOrder(request: Request, snapshot: Snapshot, i: nat, j: nat)
    requires i < j < |ReportOf(request, snapshot).findings|
    requires Plain(ReportOf(request, snapshot).findings[i]) && Plain(ReportOf(request, snapshot).findings[j])
    ensures !FirstLess(FieldsOf(ReportOf(request, snapshot).findings[j]), FieldsOf(ReportOf(request, snapshot).findings[i]))
  {
    hide AllFindings, Warnings, FindingLess, FirstLess, WeakOrder, Plain, FieldsOf;
    FindingOrder();
    SortBySorts(FindingLess, AllFindings(request, snapshot));
    FindingsCompare(ReportOf(request, snapshot).findings[j], ReportOf(request, snapshot).findings[i]);
  }
}
