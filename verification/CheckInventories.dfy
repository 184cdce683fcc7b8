// What a report without drift says about the inventoried items, in the inventories' own terms, and for
// which inventories it says it (internal/app/check.go:456-641, 968-993).
module CheckInventories {
  import opened Text
  import opened Sorting
  import opened Check
  import opened CheckTheorems

  // ---- Items that were observed as they should be ----

  ghost predicate ValidatorMet(name: string, observed: seq<ValidatorSeen>) {
    exists seen :: Once(observed, ValidatorName, name, seen) && seen.status.Passed?
  }

  ghost predicate PackageMet(item: PackageItem, observed: seq<PackageSeen>) {
    exists seen :: (
      Once(observed, PackageSeenName, item.name, seen)
      && seen.present && (item.version != "" ==> seen.version == item.version))
  }

  ghost predicate ServiceMet(item: ServiceItem, observed: seq<ServiceSeen>) {
    exists seen :: (
      Once(observed, ServiceSeenName, item.unit, seen)
      && seen.installed && (item.requireEnabled ==> seen.enabled) && (item.requireActive ==> seen.active))
  }

  ghost predicate ConfigMet(item: ConfigItem, observed: seq<ConfigSeen>) {
    exists seen :: Once(observed, ConfigSeenName, item.name, seen) && seen.liveHash == item.desiredHash != ""
  }

  ghost predicate IntegrityMet(name: string, observed: seq<PacmanSeen>) {
    exists seen :: (
      Once(observed, PacmanName, name, seen)
      && (seen.status.Passed? || (seen.status.Unstated? && seen.clean)))
  }

  ghost predicate PackagesMet(items: seq<PackageItem>, observed: seq<PackageSeen>) {
    forall i :: 0 <= i < |items| ==> PackageMet(items[i], observed)
  }

  ghost predicate ServicesMet(items: seq<ServiceItem>, observed: seq<ServiceSeen>) {
    forall i :: 0 <= i < |items| ==> ServiceMet(items[i], observed)
  }

  ghost predicate ConfigsMet(items: seq<ConfigItem>, observed: seq<ConfigSeen>) {
    forall i :: 0 <= i < |items| ==> ConfigMet(items[i], observed)
  }

  // ---- Inventories whose first entry under a name asks for what the others ask for ----

  ghost predicate PackagesAgree(items: seq<PackageItem>) {
    forall i :: 0 <= i < |items| ==> items[i].version == "" || items[i].version == Leader(items, PackageName, i).version
  }

  ghost predicate ServicesAgree(items: seq<ServiceItem>) {
    forall i :: 0 <= i < |items| ==>
      && (items[i].requireEnabled ==> Leader(items, ServiceName, i).requireEnabled)
      && (items[i].requireActive ==> Leader(items, ServiceName, i).requireActive)
  }

  ghost predicate ConfigsAgree(items: seq<ConfigItem>) {
    forall i :: 0 <= i < |items| ==> items[i].desiredHash == Leader(items, ConfigName, i).desiredHash
  }

  // ---- The observation that suits every first entry ----

  lemma Suiting<E, S(!new)>(expected: seq<E>, wanted: E -> string, make: Option<E> -> S, seen: S -> string)
    returns (observed: seq<S>)
    requires forall e :: e in expected ==> seen(make(Some(e))) == wanted(e)
    ensures forall i :: 0 <= i < |expected| ==>
      Sole(observed, seen, wanted(expected[i])) == Some(make(Some(Leader(expected, wanted, i))))
  {
    hide Sole, First;
    var all := NamesOf(expected, wanted);
    var names := InOrder(PLAIN, Elements(all));
    InOrderIsSorted(PLAIN, Elements(all));
    observed := seq(|names|, k requires 0 <= k < |names| => make(First(expected, wanted, names[k])));
    forall k | 0 <= k < |names|
      ensures seen(observed[k]) == names[k]
    {
      assert names[k] in Elements(names);
      var j :| 0 <= j < |all| && all[j] == names[k];
      FirstIsThere(expected, wanted, j);
    }
    forall i | 0 <= i < |expected|
      ensures Sole(observed, seen, wanted(expected[i])) == Some(make(Some(Leader(expected, wanted, i))))
    {
      assert all[i] in Elements(all);
      assert all[i] in Elements(names);
      var k :| 0 <= k < |names| && names[k] == all[i];
      assert observed[k] == make(Some(Leader(expected, wanted, i)));
      assert Once(observed, seen, wanted(expected[i]), observed[k]);
      SoleIsOnce(observed, seen, wanted(expected[i]), observed[k]);
    }
  }

  lemma OneSole<T(!new)>(values: seq<T>, name: T -> string, n: string)
    ensures forall value :: Once(values, name, n, value) <==> Sole(values, name, n) == Some(value)
  {
    hide Once, Sole;
    forall value
      ensures Once(values, name, n, value) <==> Sole(values, name, n) == Some(value)
    {
      SoleIsOnce(values, name, n, value);
    }
  }

  function SuitingPackage(item: Option<PackageItem>): PackageSeen {
    if item.None? then PackageSeen("", true, "", Passed) else PackageSeen(item.value.name, true, item.value.version, Passed)
  }

  function SuitingService(item: Option<ServiceItem>): ServiceSeen {
    if item.None? then ServiceSeen("", true, true, true, Passed)
    else ServiceSeen(item.value.unit, true, item.value.requireEnabled, item.value.requireActive, Passed)
  }

  function SuitingConfig(item: Option<ConfigItem>): ConfigSeen {
    if item.None? then ConfigSeen("", "", Passed) else ConfigSeen(item.value.name, item.value.desiredHash, Passed)
  }

  // ---- Packages ----

  ghost predicate PackagesQuiet(items: seq<PackageItem>, observed: seq<PackageSeen>) {
    KindFindings(PACKAGE, items, PackageName, observed, PackageSeenName, JudgePackage) == []
  }

  // No findings about packages mean that every item is met, whatever was observed, exactly if each names
  // no version or the version of the first item under its name.
  lemma PackagesMatchExactlyWhen(items: seq<PackageItem>)
    ensures (forall observed :: PackagesQuiet(items, observed) ==> PackagesMet(items, observed)) <==> PackagesAgree(items)
  {
    hide PackagesQuiet, PackagesMet, PackagesAgree;
    if PackagesAgree(items) {
      forall observed | PackagesQuiet(items, observed)
        ensures PackagesMet(items, observed)
      {
        QuietPackagesAreMet(items, observed);
      }
    } else {
      var observed := UnmetPackages(items);
    }
  }

  lemma QuietPackagesAreMet(items: seq<PackageItem>, observed: seq<PackageSeen>)
    requires PackagesQuiet(items, observed) && PackagesAgree(items)
    ensures PackagesMet(items, observed)
  {
    hide Sole, Once, KindFindings;
    KindIsFineExactlyWhen(PACKAGE, items, PackageName, observed, PackageSeenName, JudgePackage);
    forall i | 0 <= i < |items|
      ensures PackageMet(items[i], observed)
    {
      OneSole(observed, PackageSeenName, items[i].name);
      assert JudgePackage(Some(Leader(items, PackageName, i)), Sole(observed, PackageSeenName, items[i].name)).Fine?;
    }
  }

  lemma UnmetPackages(items: seq<PackageItem>) returns (observed: seq<PackageSeen>)
    requires !PackagesAgree(items)
    ensures PackagesQuiet(items, observed) && !PackagesMet(items, observed)
  {
    hide Sole, Once, KindFindings;
    observed := Suiting(items, PackageName, SuitingPackage, PackageSeenName);
    KindIsFineExactlyWhen(PACKAGE, items, PackageName, observed, PackageSeenName, JudgePackage);
    var i :| 0 <= i < |items| && items[i].version != "" && items[i].version != Leader(items, PackageName, i).version;
    OneSole(observed, PackageSeenName, items[i].name);
    assert !PackageMet(items[i], observed);
  }

  // For one: a name inventoried twice with two versions, the first of them installed.
  lemma SecondEntryIsNotChecked(name: string, first: string, second: string)
    requires first != second && first != "" && second != ""
    ensures var items := [PackageItem(name, first), PackageItem(name, second)];
            var observed := [PackageSeen(name, true, first, Passed)];
            PackagesQuiet(items, observed) && !PackageMet(items[1], observed)
  {
    hide KindFindings, Sole;
    var items := [PackageItem(name, first), PackageItem(name, second)];
    var observed := [PackageSeen(name, true, first, Passed)];
    OneSole(observed, PackageSeenName, name);
    assert Once(observed, PackageSeenName, name, observed[0]);
    assert Leader(items, PackageName, 0) == Leader(items, PackageName, 1) == items[0];
    KindIsFineExactlyWhen(PACKAGE, items, PackageName, observed, PackageSeenName, JudgePackage);
  }

  // ---- Services ----

  ghost predicate ServicesQuiet(items: seq<ServiceItem>, observed: seq<ServiceSeen>) {
    KindFindings(SERVICE, items, ServiceName, observed, ServiceSeenName, JudgeService) == []
  }

  // The same for services: exactly if the first item under a name requires the states the others require.
  lemma ServicesMatchExactlyWhen(items: seq<ServiceItem>)
    ensures (forall observed :: ServicesQuiet(items, observed) ==> ServicesMet(items, observed)) <==> ServicesAgree(items)
  {
    hide ServicesQuiet, ServicesMet, ServicesAgree;
    if ServicesAgree(items) {
      forall observed | ServicesQuiet(items, observed)
        ensures ServicesMet(items, observed)
      {
        QuietServicesAreMet(items, observed);
      }
    } else {
      var observed := UnmetServices(items);
    }
  }

  lemma QuietServicesAreMet(items: seq<ServiceItem>, observed: seq<ServiceSeen>)
    requires ServicesQuiet(items, observed) && ServicesAgree(items)
    ensures ServicesMet(items, observed)
  {
    hide Sole, Once, KindFindings;
    KindIsFineExactlyWhen(SERVICE, items, ServiceName, observed, ServiceSeenName, JudgeService);
    forall i | 0 <= i < |items|
      ensures ServiceMet(items[i], observed)
    {
      OneSole(observed, ServiceSeenName, items[i].unit);
      assert JudgeService(Some(Leader(items, ServiceName, i)), Sole(observed, ServiceSeenName, items[i].unit)).Fine?;
    }
  }

  lemma UnmetServices(items: seq<ServiceItem>) returns (observed: seq<ServiceSeen>)
    requires !ServicesAgree(items)
    ensures ServicesQuiet(items, observed) && !ServicesMet(items, observed)
  {
    hide Sole, Once, KindFindings;
    observed := Suiting(items, ServiceName, SuitingService, ServiceSeenName);
    KindIsFineExactlyWhen(SERVICE, items, ServiceName, observed, ServiceSeenName, JudgeService);
    var i :| 0 <= i < |items|
      && ((items[i].requireEnabled && !Leader(items, ServiceName, i).requireEnabled)
          || (items[i].requireActive && !Leader(items, ServiceName, i).requireActive));
    OneSole(observed, ServiceSeenName, items[i].unit);
    assert !ServiceMet(items[i], observed);
  }

  // ---- Configurations ----

  ghost predicate ConfigsQuiet(kind: string, items: seq<ConfigItem>, observed: seq<ConfigSeen>) {
    KindFindings(kind, items, ConfigName, observed, ConfigSeenName, ConfigJudge(kind)) == []
  }

  function ConfigJudge(kind: string): (Option<ConfigItem>, Option<ConfigSeen>) -> Verdict {
    if kind == BOOT then BootVerdict else PamVerdict
  }

  // Without a desired hash an item can only be unknown.
  ghost predicate HashesGiven(items: seq<ConfigItem>) {
    forall i :: 0 <= i < |items| ==> Leader(items, ConfigName, i).desiredHash != ""
  }

  // The same for boot and PAM configurations: exactly if all items under a name desire the same hash, or
  // the inventory is never found in order because a first item desires none.
  lemma ConfigsMatchExactlyWhen(kind: string, items: seq<ConfigItem>)
    requires kind == BOOT || kind == PAM
    ensures (forall observed :: ConfigsQuiet(kind, items, observed) ==> ConfigsMet(items, observed))
       <==> ConfigsAgree(items) || !HashesGiven(items)
  {
    hide ConfigsQuiet, ConfigsMet, ConfigsAgree, HashesGiven;
    if ConfigsAgree(items) || !HashesGiven(items) {
      forall observed | ConfigsQuiet(kind, items, observed)
        ensures ConfigsMet(items, observed)
      {
        QuietConfigsHaveHashes(kind, items, observed);
        QuietConfigsAreMet(kind, items, observed);
      }
    } else {
      var observed := UnmetConfigs(kind, items);
    }
  }

  lemma QuietConfigsHaveHashes(kind: string, items: seq<ConfigItem>, observed: seq<ConfigSeen>)
    requires (kind == BOOT || kind == PAM) && ConfigsQuiet(kind, items, observed)
    ensures HashesGiven(items)
  {
    hide Sole, KindFindings;
    KindIsFineExactlyWhen(kind, items, ConfigName, observed, ConfigSeenName, ConfigJudge(kind));
    forall i | 0 <= i < |items|
      ensures Leader(items, ConfigName, i).desiredHash != ""
    {
      assert ConfigJudge(kind)(Some(Leader(items, ConfigName, i)), Sole(observed, ConfigSeenName, items[i].name)).Fine?;
    }
  }

  lemma QuietConfigsAreMet(kind: string, items: seq<ConfigItem>, observed: seq<ConfigSeen>)
    requires (kind == BOOT || kind == PAM) && ConfigsQuiet(kind, items, observed) && ConfigsAgree(items)
    ensures ConfigsMet(items, observed)
  {
    hide Sole, Once, KindFindings;
    KindIsFineExactlyWhen(kind, items, ConfigName, observed, ConfigSeenName, ConfigJudge(kind));
    forall i | 0 <= i < |items|
      ensures ConfigMet(items[i], observed)
    {
      OneSole(observed, ConfigSeenName, items[i].name);
      assert ConfigJudge(kind)(Some(Leader(items, ConfigName, i)), Sole(observed, ConfigSeenName, items[i].name)).Fine?;
    }
  }

  lemma UnmetConfigs(kind: string, items: seq<ConfigItem>) returns (observed: seq<ConfigSeen>)
    requires (kind == BOOT || kind == PAM) && HashesGiven(items) && !ConfigsAgree(items)
    ensures ConfigsQuiet(kind, items, observed) && !ConfigsMet(items, observed)
  {
    hide Sole, Once, KindFindings;
    observed := Suiting(items, ConfigName, SuitingConfig, ConfigSeenName);
    KindIsFineExactlyWhen(kind, items, ConfigName, observed, ConfigSeenName, ConfigJudge(kind));
    var i :| 0 <= i < |items| && items[i].desiredHash != Leader(items, ConfigName, i).desiredHash;
    OneSole(observed, ConfigSeenName, items[i].name);
    assert !ConfigMet(items[i], observed);
  }

  // ---- Whole requests ----

  ghost predicate AllMet(request: Request, snapshot: Snapshot) {
    && (forall i :: 0 <= i < |request.files| ==> FileMatches(request.files[i], snapshot.files))
    && (forall i :: 0 <= i < |request.validators| ==> ValidatorMet(request.validators[i], snapshot.validators))
    && PackagesMet(request.packages, snapshot.packages)
    && ServicesMet(request.services, snapshot.services)
    && ConfigsMet(request.boot, snapshot.boot)
    && ConfigsMet(request.pam, snapshot.pam)
    && snapshot.failedUnits == []
    && forall i :: 0 <= i < |request.pacman| ==> IntegrityMet(request.pacman[i], snapshot.pacman)
  }

  ghost predicate Agrees(request: Request) {
    PackagesAgree(request.packages) && ServicesAgree(request.services) && ConfigsAgree(request.boot) && ConfigsAgree(request.pam)
  }

  // What no drift means for each inventory: of files, validators, units and package manager integrity
  // without condition, of the others if their first items ask for what the others ask for.
  lemma NoDriftMeansItemsMatch(request: Request, snapshot: Snapshot)
    requires !ReportOf(request, snapshot).drift
    ensures forall i :: 0 <= i < |request.files| ==> FileMatches(request.files[i], snapshot.files)
    ensures forall i :: 0 <= i < |request.validators| ==> ValidatorMet(request.validators[i], snapshot.validators)
    ensures PackagesAgree(request.packages) ==> PackagesMet(request.packages, snapshot.packages)
    ensures ServicesAgree(request.services) ==> ServicesMet(request.services, snapshot.services)
    ensures ConfigsAgree(request.boot) ==> ConfigsMet(request.boot, snapshot.boot)
    ensures ConfigsAgree(request.pam) ==> ConfigsMet(request.pam, snapshot.pam)
    ensures HashesGiven(request.boot) && HashesGiven(request.pam)
    ensures snapshot.failedUnits == []
    ensures forall i :: 0 <= i < |request.pacman| ==> IntegrityMet(request.pacman[i], snapshot.pacman)
  {
    hide PackagesAgree, ServicesAgree, ConfigsAgree, PackagesMet, ServicesMet, ConfigsMet, HashesGiven, ReportOf, FileMatches, PackagesQuiet,
      ServicesQuiet, ConfigsQuiet, Once, Sole, Satisfied, JudgePackage, JudgeService;
    NoDriftExactlyWhen(request, snapshot);
    QuietKinds(request, snapshot);
    if PackagesAgree(request.packages) { QuietPackagesAreMet(request.packages, snapshot.packages); }
    if ServicesAgree(request.services) { QuietServicesAreMet(request.services, snapshot.services); }
    if ConfigsAgree(request.boot) { QuietConfigsAreMet(BOOT, request.boot, snapshot.boot); }
    if ConfigsAgree(request.pam) { QuietConfigsAreMet(PAM, request.pam, snapshot.pam); }
    QuietConfigsHaveHashes(BOOT, request.boot, snapshot.boot);
    QuietConfigsHaveHashes(PAM, request.pam, snapshot.pam);
    SatisfiedValidators(request.validators, snapshot.validators);
    SatisfiedIntegrity(request.pacman, snapshot.pacman);
  }

  lemma QuietKinds(request: Request, snapshot: Snapshot)
    requires AllSatisfied(request, snapshot)
    ensures PackagesQuiet(request.packages, snapshot.packages) && ServicesQuiet(request.services, snapshot.services)
    ensures ConfigsQuiet(BOOT, request.boot, snapshot.boot) && ConfigsQuiet(PAM, request.pam, snapshot.pam)
  {
    hide KindFindings, Satisfied;
    assert |BOOT| == 4 && |PAM| == 3;
    KindIsFineExactlyWhen(PACKAGE, request.packages, PackageName, snapshot.packages, PackageSeenName, JudgePackage);
    KindIsFineExactlyWhen(SERVICE, request.services, ServiceName, snapshot.services, ServiceSeenName, JudgeService);
    KindIsFineExactlyWhen(BOOT, request.boot, ConfigName, snapshot.boot, ConfigSeenName, BootVerdict);
    KindIsFineExactlyWhen(PAM, request.pam, ConfigName, snapshot.pam, ConfigSeenName, PamVerdict);
  }

  lemma SatisfiedValidators(names: seq<string>, observed: seq<ValidatorSeen>)
    requires Satisfied(names, Self, observed, ValidatorName, ValidatorVerdict)
    ensures forall i :: 0 <= i < |names| ==> ValidatorMet(names[i], observed)
  {
    hide Sole, Once;
    forall i | 0 <= i < |names|
      ensures ValidatorMet(names[i], observed)
    {
      OneSole(observed, ValidatorName, names[i]);
      assert ValidatorVerdict(Some(Leader(names, Self, i)), Sole(observed, ValidatorName, Self(names[i]))).Fine?;
    }
  }

  lemma SatisfiedIntegrity(names: seq<string>, observed: seq<PacmanSeen>)
    requires Satisfied(names, Self, observed, PacmanName, PacmanVerdict)
    ensures forall i :: 0 <= i < |names| ==> IntegrityMet(names[i], observed)
  {
    hide Sole, Once;
    forall i | 0 <= i < |names|
      ensures IntegrityMet(names[i], observed)
    {
      OneSole(observed, PacmanName, names[i]);
      assert PacmanVerdict(Some(Leader(names, Self, i)), Sole(observed, PacmanName, Self(names[i]))).Fine?;
    }
  }

  // For a request that can be without drift at all: no drift always means that every inventoried item was
  // observed as it should be, exactly if the first items under each name ask for what the others ask for.
  lemma ItemsMatchExactlyWhen(request: Request, clean: Snapshot)
    requires !ReportOf(request, clean).drift
    ensures (forall snapshot :: !ReportOf(request, snapshot).drift ==> AllMet(request, snapshot)) <==> Agrees(request)
  {
    hide ReportOf, PackagesAgree, ServicesAgree, ConfigsAgree, PackagesMet, ServicesMet, ConfigsMet, HashesGiven, FileMatches, ValidatorMet,
      IntegrityMet, PackagesQuiet, ServicesQuiet, ConfigsQuiet;
    if Agrees(request) {
      forall snapshot | !ReportOf(request, snapshot).drift
        ensures AllMet(request, snapshot)
      {
        NoDriftMeansItemsMatch(request, snapshot);
      }
    } else {
      NoDriftMeansItemsMatch(request, clean);
      var packages, services, boot, pam := clean.packages, clean.services, clean.boot, clean.pam;
      NoDriftExactlyWhen(request, clean);
      QuietKinds(request, clean);
      if !PackagesAgree(request.packages) {
        packages := UnmetPackages(request.packages);
      } else if !ServicesAgree(request.services) {
        services := UnmetServices(request.services);
      } else if !ConfigsAgree(request.boot) {
        boot := UnmetConfigs(BOOT, request.boot);
      } else {
        pam := UnmetConfigs(PAM, request.pam);
      }
      StillNoDrift(request, clean, packages, services, boot, pam);
      assert !AllMet(request, clean.(packages := packages, services := services, boot := boot, pam := pam));
    }
  }

  lemma StillNoDrift(request: Request, clean: Snapshot, packages: seq<PackageSeen>, services: seq<ServiceSeen>,
                     boot: seq<ConfigSeen>, pam: seq<ConfigSeen>)
    requires !ReportOf(request, clean).drift
    requires PackagesQuiet(request.packages, packages) && ServicesQuiet(request.services, services)
    requires ConfigsQuiet(BOOT, request.boot, boot) && ConfigsQuiet(PAM, request.pam, pam)
    ensures !ReportOf(request, clean.(packages := packages, services := services, boot := boot, pam := pam)).drift
  {
    hide ReportOf, KindFindings, Satisfied, FileMatches;
    var snapshot := clean.(packages := packages, services := services, boot := boot, pam := pam);
    assert |BOOT| == 4 && |PAM| == 3;
    NoDriftExactlyWhen(request, clean);
    NoDriftExactlyWhen(request, snapshot);
    KindIsFineExactlyWhen(PACKAGE, request.packages, PackageName, packages, PackageSeenName, JudgePackage);
    KindIsFineExactlyWhen(SERVICE, request.services, ServiceName, services, ServiceSeenName, JudgeService);
    KindIsFineExactlyWhen(BOOT, request.boot, ConfigName, boot, ConfigSeenName, BootVerdict);
    KindIsFineExactlyWhen(PAM, request.pam, ConfigName, pam, ConfigSeenName, PamVerdict);
  }
}
