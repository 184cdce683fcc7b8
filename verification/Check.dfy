// The offline checker (internal/app/check.go): from inventories and one snapshot to a canonical report.
module Check {
  import opened Text
  import opened Sorting

  // ---- Inventories and observations ----

  // Statuses and file states after their spellings were normalised.
  datatype Status = Unstated | Passed | Failed | Unknown

  datatype FileState = Observed | Missing | Unsafe | Unreadable | Unclear

  datatype FileItem = FileItem(
    path: string,
    desiredHash: string,
    receiptAfterHash: string,
    afterHash: string,
    backup: string,
    ownership: string,
    owned: bool)

  datatype FileSeen = FileSeen(path: string, state: FileState, liveHash: string, hash: string, ownership: string)

  datatype ValidatorSeen = ValidatorSeen(name: string, status: Status)

  datatype PackageItem = PackageItem(name: string, version: string)

  datatype PackageSeen = PackageSeen(name: string, present: bool, version: string, status: Status)

  datatype ServiceItem = ServiceItem(unit: string, requireEnabled: bool, requireActive: bool)

  datatype ServiceSeen = ServiceSeen(unit: string, installed: bool, enabled: bool, active: bool, status: Status)

  datatype ConfigItem = ConfigItem(name: string, desiredHash: string)

  datatype ConfigSeen = ConfigSeen(name: string, liveHash: string, status: Status)

  datatype PacmanSeen = PacmanSeen(name: string, clean: bool, status: Status)

  datatype Presence = Unset | Present | Absent | NotKnown

  datatype Request = Request(
    files: seq<FileItem>,
    validators: seq<string>,
    packages: seq<PackageItem>,
    services: seq<ServiceItem>,
    boot: seq<ConfigItem>,
    pam: seq<ConfigItem>,
    failedUnits: bool,
    pacman: seq<string>,
    pacnew: bool,
    fingerprint: bool)

  datatype Snapshot = Snapshot(
    files: seq<FileSeen>,
    validators: seq<ValidatorSeen>,
    packages: seq<PackageSeen>,
    services: seq<ServiceSeen>,
    boot: seq<ConfigSeen>,
    pam: seq<ConfigSeen>,
    failedUnits: seq<string>,
    pacman: seq<PacmanSeen>,
    pacnew: seq<string>,
    fingerprint: Presence)

  // ---- Findings ----

  datatype Finding = Finding(kind: string, code: string, category: string, subject: string, path: string, backup: string)

  datatype Report = Report(drift: bool, findings: seq<Finding>, warnings: seq<string>)

  const NONE := "none"
  const DESIRED_STATE := "desired-state"
  const POST_APPLY := "post-apply"
  const UNMANAGED := "unmanaged-conflict"
  const UNKNOWN := "unknown"

  const FILE := "managed-file"
  const VALIDATOR := "validator"
  const PACKAGE := "package"
  const SERVICE := "service"
  const BOOT := "boot"
  const PAM := "pam"
  const FAILED_UNIT := "failed-unit"
  const PACMAN := "pacman-integrity"
  const PACNEW := "pacnew"
  const OBSERVATION := "observation"
  const UNAVAILABLE := "observer-unavailable"

  const SEVERITY := "error"

  function Key(f: Finding): string {
    f.kind + ("\0" + (f.path + ("\0" + (f.subject + ("\0" + (f.category + ("\0" + (f.code + ("\0" + (f.backup + ("\0" + SEVERITY)))))))))))
  }

  predicate FindingLess(a: Finding, b: Finding) {
    Less(Key(a), Key(b))
  }

  function NamedFinding(kind: string, code: string, category: string, subject: string): Finding {
    Finding(kind, code, category, subject, "", "")
  }

  // ---- Judging one item ----

  datatype Verdict = Fine | Fault(code: string, category: string)

  // ClassifyManagedFile
  function ClassOf(file: FileItem, seen: FileSeen): string {
    var recorded := if file.receiptAfterHash == "" then file.afterHash else file.receiptAfterHash;
    match seen.state
    case Missing =>
      if recorded != "" then POST_APPLY else if file.desiredHash == "" then UNKNOWN else DESIRED_STATE
    case Observed =>
      var live := if seen.liveHash == "" then seen.hash else seen.liveHash;
      if live == "" then UNKNOWN
      else if file.ownership == "" && !file.owned && seen.ownership == "" then UNMANAGED
      else if recorded != "" && live != recorded then POST_APPLY
      else if file.desiredHash == "" then UNKNOWN
      else if live != file.desiredHash then DESIRED_STATE
      else NONE
    case _ => UNKNOWN
  }

  function JudgeFile(file: FileItem, seen: Option<FileSeen>): Verdict {
    if seen.None? then Fault(UNAVAILABLE, UNKNOWN)
    else
      var category := ClassOf(file, seen.value);
      if category == NONE then Fine else Fault("managed-file-" + category, category)
  }

  function JudgeValidator(seen: Option<ValidatorSeen>): Verdict {
    if seen.None? then Fault("validator-unknown", UNKNOWN)
    else
      match seen.value.status
      case Passed => Fine
      case Failed => Fault("validator-failed", DESIRED_STATE)
      case _ => Fault("validator-unknown", UNKNOWN)
  }

  function JudgePackage(want: Option<PackageItem>, seen: Option<PackageSeen>): Verdict {
    if seen.None? || seen.value.status.Unknown? then Fault("package-unknown", UNKNOWN)
    else if !seen.value.present then Fault("package-missing", DESIRED_STATE)
    else if seen.value.status.Failed? then Fault("package-version", DESIRED_STATE)
    else if want.Some? && want.value.version != "" && seen.value.version != want.value.version then
      Fault("package-version", DESIRED_STATE)
    else Fine
  }

  function JudgeService(want: Option<ServiceItem>, seen: Option<ServiceSeen>): Verdict {
    if seen.None? || seen.value.status.Unknown? then Fault("service-unknown", UNKNOWN)
    else if !seen.value.installed || seen.value.status.Failed? then Fault("service-state", DESIRED_STATE)
    else if want.Some? && want.value.requireEnabled && !seen.value.enabled then Fault("service-state", DESIRED_STATE)
    else if want.Some? && want.value.requireActive && !seen.value.active then Fault("service-state", DESIRED_STATE)
    else Fine
  }

  function JudgeConfig(kind: string, want: Option<ConfigItem>, seen: Option<ConfigSeen>): Verdict {
    var unknown, drift := Fault(kind + "-unknown", UNKNOWN), Fault(kind + "-drift", DESIRED_STATE);
    if seen.None? || seen.value.status.Unknown? then unknown
    else if seen.value.status.Failed? then drift
    else if want.Some? then
      (if want.value.desiredHash == "" || seen.value.liveHash == "" then unknown
       else if seen.value.liveHash != want.value.desiredHash then drift
       else Fine)
    else if seen.value.status.Passed? then Fine
    else unknown
  }

  function JudgePacman(seen: Option<PacmanSeen>): Verdict {
    if seen.None? || seen.value.status.Unknown? then Fault("pacman-integrity-unknown", UNKNOWN)
    else if seen.value.status.Failed? || (seen.value.status.Unstated? && !seen.value.clean) then
      Fault("pacman-integrity", DESIRED_STATE)
    else Fine
  }

  // ---- Finding items by name ----

  function Matching<T>(values: seq<T>, name: T -> string, n: string): seq<T> {
    if values == [] then []
    else
      var last := values[|values| - 1];
      Matching(values[..|values| - 1], name, n) + (if name(last) == n then [last] else [])
  }

  // What was observed under a name, if it was observed once.
  function Sole<T>(values: seq<T>, name: T -> string, n: string): Option<T> {
    var found := Matching(values, name, n);
    if |found| == 1 then Some(found[0]) else None
  }

  // packageByName and its likes: the first that fits.
  function First<T>(values: seq<T>, name: T -> string, n: string): Option<T> {
    if values == [] then None
    else if name(values[0]) == n then Some(values[0])
    else First(values[1..], name, n)
  }

  // The index of one list of observations and the names that occur in it more than once.
  method IndexBy<T>(values: seq<T>, name: T -> string) returns (index: map<string, T>, duplicates: set<string>)
    ensures forall n :: Sole(values, name, n) == if n in index && n !in duplicates then Some(index[n]) else None
  {
    index, duplicates := map[], {};
    for i := 0 to |values|
      invariant forall n :: n in index <==> Matching(values[..i], name, n) != []
      invariant forall n :: n in duplicates <==> |Matching(values[..i], name, n)| > 1
      invariant forall n :: n in index && n !in duplicates ==> Matching(values[..i], name, n) == [index[n]]
    {
      var value := values[i];
      assert values[..i + 1][..i] == values[..i];
      assert forall n :: (
        Matching(values[..i + 1], name, n) == Matching(values[..i], name, n) + (if name(value) == n then [value] else []));
      if name(value) in index { duplicates := duplicates + {name(value)}; }
      index := index[name(value) := value];
    }
    assert values[..|values|] == values;
  }

  method FindFirst<T>(values: seq<T>, name: T -> string, n: string) returns (found: Option<T>)
    ensures found == First(values, name, n)
  {
    assert values[0..] == values;
    for i := 0 to |values|
      invariant First(values, name, n) == First(values[i..], name, n)
    {
      assert values[i..][0] == values[i] && values[i..][1..] == values[i + 1..];
      if name(values[i]) == n { return Some(values[i]); }
    }
    return None;
  }

  lemma {:induction false} LessOrder()
    ensures WeakOrder(Less)
  {
    forall a: string, b: string, c: string
      ensures !Less(a, a) && (Less(a, b) && !Less(c, b) ==> !Less(c, a))
    {
      TextOrder(a, b, c);
    }
  }

  // Sort, then drop repetitions.
  method SortedUnique(values: seq<string>) returns (r: seq<string>)
    ensures r == InOrder(PLAIN, Elements(values))
  {
    hide Less, InOrder, InOrderBy, WeakOrder, SortBy, Compacted, Elements, Increasing;
    var sorted := SortBy(Less, values);
    LessOrder();
    SortBySorts(Less, values);
    r := [];
    NoneCompacted(sorted);
    for i := 0 to |sorted|
      invariant Compacted(r, sorted[..i])
    {
      KeepOrSkip(r, sorted, i);
      if |r| == 0 || r[|r| - 1] != sorted[i] { r := r + [sorted[i]]; }
    }
    CompactedIsInOrder(r, sorted, values);
  }

  lemma NoneCompacted(sorted: seq<string>)
    ensures Compacted([], sorted[..0])
  {
  }

  lemma CompactedIsInOrder(r: seq<string>, sorted: seq<string>, values: seq<string>)
    requires Compacted(r, sorted[..|sorted|]) && multiset(sorted) == multiset(values)
    ensures r == InOrder(PLAIN, Elements(values))
  {
    hide InOrder, Increasing;
    assert sorted[..|sorted|] == sorted;
    SameMembers(sorted, values);
    IncreasingIsInOrder(PLAIN, r);
  }

  // The members of a sorted prefix, once each, ending in its last.
  ghost predicate Compacted(r: seq<string>, prefix: seq<string>) {
    && Elements(r) == Elements(prefix)
    && Increasing(PLAIN, r)
    && (r == [] <==> prefix == [])
    && (r != [] ==> r[|r| - 1] == prefix[|prefix| - 1])
  }

  lemma KeepOrSkip(r: seq<string>, sorted: seq<string>, i: nat)
    requires InOrderBy(Less, sorted) && i < |sorted| && Compacted(r, sorted[..i])
    ensures Compacted(if r == [] || r[|r| - 1] != sorted[i] then r + [sorted[i]] else r, sorted[..i + 1])
  {
    hide Less;
    PrefixElements(sorted, i);
    assert sorted[..i + 1][i] == sorted[i];
    if r == [] || r[|r| - 1] != sorted[i] {
      ElementsOfAppend(r, [sorted[i]]);
      if r == [] {
        OneIncreases(sorted[i]);
        assert [] + [sorted[i]] == [sorted[i]];
      } else {
        assert !Less(sorted[i], sorted[i - 1]) && sorted[..i][i - 1] == sorted[i - 1];
        LessIsStrictTotal(sorted[i], sorted[i - 1]);
        NextIncreases(r, sorted[i]);
      }
    } else {
      assert sorted[i] in Elements(r);
    }
  }

  lemma OneIncreases(x: string)
    ensures Increasing(PLAIN, [x]) && Elements([x]) == {x}
  {
  }

  lemma NextIncreases(r: seq<string>, next: string)
    requires r != [] && Increasing(PLAIN, r) && Less(r[|r| - 1], next)
    ensures Increasing(PLAIN, r + [next])
  {
    forall i | 0 <= i < |r|
      ensures Less(r[i], next)
    {
      if i < |r| - 1 {
        assert Before(PLAIN, r[i], r[|r| - 1]);
        LessIsTransitive(r[i], r[|r| - 1], next);
      }
    }
  }

  lemma SameMembers<T>(a: seq<T>, b: seq<T>)
    requires multiset(a) == multiset(b)
    ensures Elements(a) == Elements(b)
  {
    assert forall x :: x in a <==> x in multiset(a);
    assert forall x :: x in b <==> x in multiset(b);
  }

  function NamesOf<T>(values: seq<T>, name: T -> string): (names: seq<string>)
    ensures |names| == |values| && forall i :: 0 <= i < |values| ==> names[i] == name(values[i])
  {
    if values == [] then [] else NamesOf(values[..|values| - 1], name) + [name(values[|values| - 1])]
  }

  // The inventoried names, or where nothing is inventoried the observed ones.
  ghost function Names(expected: seq<string>, observed: seq<string>): seq<string> {
    InOrder(PLAIN, Elements(if expected != [] then expected else observed))
  }

  // ---- Evaluating one kind ----

  function FindingsFor(kind: string, names: seq<string>, judge: string -> Verdict): seq<Finding> {
    if names == [] then []
    else
      var last := names[|names| - 1];
      FindingsFor(kind, names[..|names| - 1], judge)
      + (match judge(last)
         case Fine => []
         case Fault(code, category) => [NamedFinding(kind, code, category, last)])
  }

  lemma NoNames(kind: string, judge: string -> Verdict)
    ensures FindingsFor(kind, [], judge) == []
  {
  }

  lemma NextName(kind: string, names: seq<string>, i: nat, judge: string -> Verdict)
    requires i < |names|
    ensures FindingsFor(kind, names[..i + 1], judge) == FindingsFor(kind, names[..i], judge)
      + (match judge(names[i])
         case Fine => []
         case Fault(code, category) => [NamedFinding(kind, code, category, names[i])])
  {
    assert names[..i + 1][..i] == names[..i];
  }

  method Evaluate<E, S>(before: seq<Finding>, kind: string, expected: seq<E>, wanted: E -> string,
                        observed: seq<S>, seen: S -> string, judge: (Option<E>, Option<S>) -> Verdict)
    returns (findings: seq<Finding>)
    ensures findings == before + KindFindings(kind, expected, wanted, observed, seen, judge)
  {
    hide First, Sole, InOrder, FindingsFor;
    NoNames(kind, n => judge(First(expected, wanted, n), Sole(observed, seen, n)));
    var index, duplicates := IndexBy(observed, seen);
    ghost var judged := n => judge(First(expected, wanted, n), Sole(observed, seen, n));
    var names := SortedUnique(if expected != [] then NamesOf(expected, wanted) else NamesOf(observed, seen));
    findings := before;
    ghost var found: seq<Finding> := [];
    for i := 0 to |names|
      invariant findings == before + found
      invariant found == FindingsFor(kind, names[..i], judged)
    {
      var name := names[i];
      NextName(kind, names, i, judged);
      var item := FindFirst(expected, wanted, name);
      var verdict := judge(item, if name in index && name !in duplicates then Some(index[name]) else None);
      assert verdict == judged(name);
      if verdict.Fault? {
        var finding := NamedFinding(kind, verdict.code, verdict.category, name);
        AppendIsAssociative(before, found, [finding]);
        findings, found := findings + [finding], found + [finding];
      }
    }
    assert names[..|names|] == names;
  }

  function FileName(seen: FileSeen): string { seen.path }

  function FileFinding(file: FileItem, observed: seq<FileSeen>): seq<Finding> {
    match JudgeFile(file, Sole(observed, FileName, file.path))
    case Fine => []
    case Fault(code, category) => [Finding(FILE, code, category, file.path, file.path, file.backup)]
  }

  // Managed files are judged in the order they are listed.
  function FileFindings(files: seq<FileItem>, observed: seq<FileSeen>): seq<Finding> {
    if files == [] then []
    else FileFindings(files[..|files| - 1], observed) + FileFinding(files[|files| - 1], observed)
  }

  method EvaluateFiles(files: seq<FileItem>, observed: seq<FileSeen>) returns (findings: seq<Finding>)
    ensures findings == FileFindings(files, observed)
  {
    hide JudgeFile, Sole;
    var index, duplicates := IndexBy(observed, FileName);
    findings := [];
    for i := 0 to |files|
      invariant findings == FileFindings(files[..i], observed)
    {
      var file := files[i];
      assert files[..i + 1][..i] == files[..i];
      var verdict := JudgeFile(file, if file.path in index && file.path !in duplicates then Some(index[file.path]) else None);
      if verdict.Fault? {
        findings := findings + [Finding(FILE, verdict.code, verdict.category, file.path, file.path, file.backup)];
      }
    }
    assert files[..|files|] == files;
  }

  function JudgeUnit(unit: string): Finding {
    if unit == "" then NamedFinding(FAILED_UNIT, "failed-unit-unknown", UNKNOWN, "failed-unit")
    else NamedFinding(FAILED_UNIT, "failed-unit", DESIRED_STATE, unit)
  }

  function UnitFindings(units: seq<string>): seq<Finding> {
    seq(|units|, i requires 0 <= i < |units| => JudgeUnit(units[i]))
  }

  // ---- The report ----

  function Self(name: string): string { name }

  function ValidatorName(seen: ValidatorSeen): string { seen.name }

  function PackageName(item: PackageItem): string { item.name }

  function PackageSeenName(seen: PackageSeen): string { seen.name }

  function ServiceName(item: ServiceItem): string { item.unit }

  function ServiceSeenName(seen: ServiceSeen): string { seen.unit }

  function ConfigName(item: ConfigItem): string { item.name }

  function ConfigSeenName(seen: ConfigSeen): string { seen.name }

  function PacmanName(seen: PacmanSeen): string { seen.name }

  ghost function KindFindings<E, S>(kind: string, expected: seq<E>, wanted: E -> string, observed: seq<S>, seen: S -> string,
                                    judge: (Option<E>, Option<S>) -> Verdict): seq<Finding> {
    FindingsFor(kind, Names(NamesOf(expected, wanted), NamesOf(observed, seen)),
                n => judge(First(expected, wanted, n), Sole(observed, seen, n)))
  }

  function ValidatorVerdict(want: Option<string>, seen: Option<ValidatorSeen>): Verdict { JudgeValidator(seen) }

  function PacmanVerdict(want: Option<string>, seen: Option<PacmanSeen>): Verdict { JudgePacman(seen) }

  function BootVerdict(want: Option<ConfigItem>, seen: Option<ConfigSeen>): Verdict { JudgeConfig(BOOT, want, seen) }

  function PamVerdict(want: Option<ConfigItem>, seen: Option<ConfigSeen>): Verdict { JudgeConfig(PAM, want, seen) }

  // The findings of everything but the managed files: all go by name.
  ghost function NamedFindings(request: Request, snapshot: Snapshot): seq<Finding> {
    KindFindings(VALIDATOR, request.validators, Self, snapshot.validators, ValidatorName, ValidatorVerdict)
    + KindFindings(PACKAGE, request.packages, PackageName, snapshot.packages, PackageSeenName, JudgePackage)
    + KindFindings(SERVICE, request.services, ServiceName, snapshot.services, ServiceSeenName, JudgeService)
    + KindFindings(BOOT, request.boot, ConfigName, snapshot.boot, ConfigSeenName, BootVerdict)
    + KindFindings(PAM, request.pam, ConfigName, snapshot.pam, ConfigSeenName, PamVerdict)
    + UnitFindings(InOrder(PLAIN, Elements(snapshot.failedUnits)))
    + KindFindings(PACMAN, request.pacman, Self, snapshot.pacman, PacmanName, PacmanVerdict)
  }

  ghost function AllFindings(request: Request, snapshot: Snapshot): seq<Finding> {
    FileFindings(request.files, snapshot.files) + NamedFindings(request, snapshot)
  }

  function PacnewWarning(path: string): string {
    "pacnew:" + (if path == "" then "unknown" else path)
  }

  function FingerprintWarnings(expected: bool, presence: Presence): set<string> {
    if !expected && presence.Unset? then {}
    else
      match presence
      case Present => {}
      case Absent => {"fingerprint-enrollment-absent"}
      case _ => {"fingerprint-enrollment-unknown"}
  }

  function PacnewWarnings(paths: seq<string>): set<string> {
    set path | path in paths :: PacnewWarning(path)
  }

  ghost function Warnings(request: Request, snapshot: Snapshot): set<string> {
    PacnewWarnings(snapshot.pacnew) + FingerprintWarnings(request.fingerprint, snapshot.fingerprint)
  }

  ghost function Finalized(findings: seq<Finding>, warnings: set<string>): Report {
    Report(findings != [], SortBy(FindingLess, findings), InOrder(PLAIN, warnings))
  }

  ghost function ReportOf(request: Request, snapshot: Snapshot): Report {
    Finalized(AllFindings(request, snapshot), Warnings(request, snapshot))
  }

  method Finalize(findings: seq<Finding>, warnings: seq<string>) returns (report: Report)
    ensures report == Finalized(findings, Elements(warnings))
  {
    var unique := SortedUnique(warnings);
    report := Report(findings != [], SortBy(FindingLess, findings), unique);
  }

  method EvaluateUnits(before: seq<Finding>, expected: bool, observed: seq<string>) returns (findings: seq<Finding>)
    ensures findings == before + UnitFindings(InOrder(PLAIN, Elements(observed)))
  {
    findings := before;
    var units := SortedUnique(observed);
    if !expected && observed == [] {
      assert UnitFindings(units) == [] by { InOrderIsSorted(PLAIN, Elements(observed)); }
      return;
    }
    for i := 0 to |units|
      invariant findings == before + UnitFindings(units[..i])
    {
      assert units[..i + 1] == units[..i] + [units[i]];
      assert UnitFindings(units[..i + 1]) == UnitFindings(units[..i]) + [JudgeUnit(units[i])];
      AppendIsAssociative(before, UnitFindings(units[..i]), [JudgeUnit(units[i])]);
      findings := findings + [JudgeUnit(units[i])];
    }
    assert units[..|units|] == units;
  }

  method EvaluatePacnew(observed: seq<string>) returns (warnings: seq<string>)
    ensures Elements(warnings) == PacnewWarnings(observed)
  {
    hide PacnewWarnings;
    warnings := [];
    var paths := SortedUnique(observed);
    assert PacnewWarnings(paths[..0]) == {} by { NoPacnew(paths[..0]); }
    for i := 0 to |paths|
      invariant Elements(warnings) == PacnewWarnings(paths[..i])
    {
      PacnewOneMore(paths, i);
      ElementsOfAppend(warnings, [PacnewWarning(paths[i])]);
      warnings := warnings + [PacnewWarning(paths[i])];
    }
    assert paths[..|paths|] == paths;
    InOrderIsSorted(PLAIN, Elements(observed));
    SamePacnew(paths, observed);
  }

  lemma NoPacnew(paths: seq<string>)
    requires paths == []
    ensures PacnewWarnings(paths) == {}
  {
  }

  lemma PacnewOneMore(paths: seq<string>, i: nat)
    requires i < |paths|
    ensures PacnewWarnings(paths[..i + 1]) == PacnewWarnings(paths[..i]) + {PacnewWarning(paths[i])}
  {
    hide PacnewWarning;
    assert paths[..i + 1] == paths[..i] + [paths[i]];
  }

  lemma SamePacnew(a: seq<string>, b: seq<string>)
    requires Elements(a) == Elements(b)
    ensures PacnewWarnings(a) == PacnewWarnings(b)
  {
    hide PacnewWarning;
    assert forall path :: path in a <==> path in Elements(a);
    assert forall path :: path in b <==> path in Elements(b);
  }

  method EvaluateNamed(before: seq<Finding>, request: Request, snapshot: Snapshot) returns (findings: seq<Finding>)
    ensures findings == before + NamedFindings(request, snapshot)
  {
    hide KindFindings, UnitFindings, JudgePackage, JudgeService, ValidatorVerdict, PacmanVerdict, BootVerdict, PamVerdict;
    var a := Evaluate([], VALIDATOR, request.validators, Self, snapshot.validators, ValidatorName, ValidatorVerdict);
    var b := Evaluate(a, PACKAGE, request.packages, PackageName, snapshot.packages, PackageSeenName, JudgePackage);
    var c := Evaluate(b, SERVICE, request.services, ServiceName, snapshot.services, ServiceSeenName, JudgeService);
    var d := Evaluate(c, BOOT, request.boot, ConfigName, snapshot.boot, ConfigSeenName, BootVerdict);
    var e := Evaluate(d, PAM, request.pam, ConfigName, snapshot.pam, ConfigSeenName, PamVerdict);
    var f := EvaluateUnits(e, request.failedUnits, snapshot.failedUnits);
    var g := Evaluate(f, PACMAN, request.pacman, Self, snapshot.pacman, PacmanName, PacmanVerdict);
    findings := before + g;
  }

  method EvaluateCheck(request: Request, snapshot: Snapshot) returns (report: Report)
    ensures report == ReportOf(request, snapshot)
  {
    hide NamedFindings, FileFindings, Finalized;
    var findings := EvaluateFiles(request.files, snapshot.files);
    findings := EvaluateNamed(findings, request, snapshot);
    var warnings := EvaluatePacnew(snapshot.pacnew);
    if request.fingerprint || !snapshot.fingerprint.Unset? {
      if snapshot.fingerprint.Absent? {
        ElementsOfAppend(warnings, ["fingerprint-enrollment-absent"]);
        warnings := warnings + ["fingerprint-enrollment-absent"];
      } else if !snapshot.fingerprint.Present? {
        ElementsOfAppend(warnings, ["fingerprint-enrollment-unknown"]);
        warnings := warnings + ["fingerprint-enrollment-unknown"];
      }
    }
    assert Elements(warnings) == Warnings(request, snapshot);
    report := Finalize(findings, warnings);
  }

  // ---- Without a snapshot ----

  function Unavailable(kind: string, code: string, subjects: seq<string>): seq<Finding> {
    seq(|subjects|, i requires 0 <= i < |subjects| => NamedFinding(kind, code, UNKNOWN, subjects[i]))
  }

  function UnavailableFiles(files: seq<FileItem>): seq<Finding> {
    seq(|files|, i requires 0 <= i < |files| =>
      Finding(FILE, UNAVAILABLE, UNKNOWN, files[i].path, files[i].path, files[i].backup))
  }

  ghost function UnavailableFindings(request: Request): seq<Finding> {
    UnavailableFiles(request.files)
    + Unavailable(VALIDATOR, "validator-unknown", request.validators)
    + Unavailable(PACKAGE, "package-unknown", NamesOf(request.packages, PackageName))
    + Unavailable(SERVICE, "service-unknown", NamesOf(request.services, ServiceName))
    + Unavailable(BOOT, "boot-unknown", NamesOf(request.boot, ConfigName))
    + Unavailable(PAM, "pam-unknown", NamesOf(request.pam, ConfigName))
    + (if request.failedUnits then [NamedFinding(FAILED_UNIT, "failed-unit-unknown", UNKNOWN, "failed-units")] else [])
    + Unavailable(PACMAN, "pacman-integrity-unknown", InOrder(PLAIN, Elements(request.pacman)))
    + (if request.pacnew then [NamedFinding(PACNEW, "pacnew-unknown", UNKNOWN, "pacnew")] else [])
  }

  ghost function FailClosed(request: Request): Report {
    var findings := UnavailableFindings(request);
    var warnings := if request.fingerprint then {"fingerprint-enrollment-unknown"} else {};
    Finalized(if findings == [] && warnings == {} then [NamedFinding(OBSERVATION, UNAVAILABLE, UNKNOWN, "check-observer")]
              else findings,
              warnings)
  }

  method AddUnavailable(before: seq<Finding>, kind: string, code: string, subjects: seq<string>) returns (findings: seq<Finding>)
    ensures findings == before + Unavailable(kind, code, subjects)
  {
    findings := before;
    for i := 0 to |subjects|
      invariant findings == before + Unavailable(kind, code, subjects)[..i]
    {
      var next := NamedFinding(kind, code, UNKNOWN, subjects[i]);
      assert Unavailable(kind, code, subjects)[i] == next;
      PrefixAppend(Unavailable(kind, code, subjects), i);
      AppendIsAssociative(before, Unavailable(kind, code, subjects)[..i], [next]);
      findings := findings + [next];
    }
  }

  method AddUnavailableFiles(files: seq<FileItem>) returns (findings: seq<Finding>)
    ensures findings == UnavailableFiles(files)
  {
    findings := [];
    for i := 0 to |files|
      invariant findings == UnavailableFiles(files)[..i]
    {
      findings := findings + [Finding(FILE, UNAVAILABLE, UNKNOWN, files[i].path, files[i].path, files[i].backup)];
    }
  }

  lemma OneWarning(warnings: seq<string>, expected: bool)
    requires warnings == if expected then ["fingerprint-enrollment-unknown"] else []
    ensures Elements(warnings) == if expected then {"fingerprint-enrollment-unknown"} else {}
  {
  }

  method ReportUnavailable(request: Request) returns (report: Report)
    ensures report == FailClosed(request)
  {
    hide Finalized, Unavailable, UnavailableFiles, InOrder, Elements;
    var findings := AddUnavailableFiles(request.files);
    findings := AddUnavailable(findings, VALIDATOR, "validator-unknown", request.validators);
    findings := AddUnavailable(findings, PACKAGE, "package-unknown", NamesOf(request.packages, PackageName));
    findings := AddUnavailable(findings, SERVICE, "service-unknown", NamesOf(request.services, ServiceName));
    findings := AddUnavailable(findings, BOOT, "boot-unknown", NamesOf(request.boot, ConfigName));
    findings := AddUnavailable(findings, PAM, "pam-unknown", NamesOf(request.pam, ConfigName));
    if request.failedUnits {
      findings := findings + [NamedFinding(FAILED_UNIT, "failed-unit-unknown", UNKNOWN, "failed-units")];
    }
    var checks := SortedUnique(request.pacman);
    findings := AddUnavailable(findings, PACMAN, "pacman-integrity-unknown", checks);
    if request.pacnew {
      findings := findings + [NamedFinding(PACNEW, "pacnew-unknown", UNKNOWN, "pacnew")];
    }
    assert findings == UnavailableFindings(request);
    var warnings: seq<string> := [];
    if request.fingerprint { warnings := ["fingerprint-enrollment-unknown"]; }
    if findings == [] && warnings == [] {
      findings := [NamedFinding(OBSERVATION, UNAVAILABLE, UNKNOWN, "check-observer")];
    }
    OneWarning(warnings, request.fingerprint);
    report := Finalize(findings, warnings);
  }

  // Checker.Check: no observer and a failing one give no snapshot.
  method RunCheck(request: Request, observed: Option<Snapshot>) returns (report: Report)
    ensures report == if observed.Some? then ReportOf(request, observed.value) else FailClosed(request)
  {
    hide ReportOf, FailClosed;
    match observed {
      case Some(snapshot) => report := EvaluateCheck(request, snapshot);
      case None => report := ReportUnavailable(request);
    }
  }
}
