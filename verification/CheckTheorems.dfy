// What a check report means (internal/app/check.go:410-641, 793-819, 995-1009).
module CheckTheorems {
  import opened Text
  import opened Sorting
  import opened Check

  // ---- Observed exactly once ----

  ghost predicate Once<T>(values: seq<T>, name: T -> string, n: string, value: T) {
    exists i :: 0 <= i < |values| && values[i] == value && name(value) == n
      && forall j :: 0 <= j < |values| && name(values[j]) == n ==> j == i
  }

  lemma {:induction false} NoMatch<T>(values: seq<T>, name: T -> string, n: string)
    ensures Matching(values, name, n) == [] <==> forall i :: 0 <= i < |values| ==> name(values[i]) != n
  {
    if values != [] { NoMatch(values[..|values| - 1], name, n); }
  }

  lemma {:induction false} SoleIsOnce<T>(values: seq<T>, name: T -> string, n: string, value: T)
    ensures Sole(values, name, n) == Some(value) <==> Once(values, name, n, value)
  {
    if values != [] {
      var rest, last := values[..|values| - 1], values[|values| - 1];
      NoMatch(rest, name, n);
      SoleIsOnce(rest, name, n, value);
      if name(last) == n {
        if Once(values, name, n, value) {
          var i :| 0 <= i < |values| && values[i] == value && name(value) == n
            && forall j :: 0 <= j < |values| && name(values[j]) == n ==> j == i;
          assert i == |values| - 1;
          assert forall j :: 0 <= j < |rest| ==> name(values[j]) != n;
        }
        if Sole(values, name, n) == Some(value) {
          assert Matching(rest, name, n) == [];
          assert values[|values| - 1] == value;
        }
      } else {
        OnceInPrefix(values, name, n, value);
      }
    }
  }

  lemma OnceInPrefix<T>(values: seq<T>, name: T -> string, n: string, value: T)
    requires values != [] && name(values[|values| - 1]) != n
    ensures Once(values[..|values| - 1], name, n, value) <==> Once(values, name, n, value)
  {
    var rest := values[..|values| - 1];
    if Once(rest, name, n, value) {
      var i :| 0 <= i < |rest| && rest[i] == value && name(value) == n
        && forall j :: 0 <= j < |rest| && name(rest[j]) == n ==> j == i;
      assert values[i] == value;
      assert forall j :: 0 <= j < |rest| ==> rest[j] == values[j];
    }
    if Once(values, name, n, value) {
      var i :| 0 <= i < |values| && values[i] == value && name(value) == n
        && forall j :: 0 <= j < |values| && name(values[j]) == n ==> j == i;
      assert rest[i] == value;
    }
  }

  // ---- Items that match ----

  function Live(seen: FileSeen): string {
    if seen.liveHash == "" then seen.hash else seen.liveHash
  }

  function Recorded(file: FileItem): string {
    if file.receiptAfterHash == "" then file.afterHash else file.receiptAfterHash
  }

  // A safe observation, the desired hash, the hash recorded after apply if there is one, and an owner.
  ghost predicate IsDesired(file: FileItem, seen: FileSeen) {
    && seen.state.Observed? && Live(seen) != "" && Live(seen) == file.desiredHash
    && (Recorded(file) != "" ==> Live(seen) == Recorded(file))
    && (file.ownership != "" || file.owned || seen.ownership != "")
  }

  ghost predicate FileMatches(file: FileItem, observed: seq<FileSeen>) {
    exists seen :: Once(observed, FileName, file.path, seen) && IsDesired(file, seen)
  }

  lemma FileIsFineExactlyWhen(file: FileItem, observed: seq<FileSeen>)
    ensures FileFinding(file, observed) == [] <==> FileMatches(file, observed)
  {
    var found := Sole(observed, FileName, file.path);
    assert |NONE| == 4 && |DESIRED_STATE| == 13 && |POST_APPLY| == 10 && |UNMANAGED| == 18 && |UNKNOWN| == 7;
    if found.Some? {
      SoleIsOnce(observed, FileName, file.path, found.value);
      forall seen | Once(observed, FileName, file.path, seen)
        ensures seen == found.value
      {
        SoleIsOnce(observed, FileName, file.path, seen);
      }
      assert ClassOf(file, found.value) == NONE <==> IsDesired(file, found.value);
    } else {
      forall seen
        ensures !Once(observed, FileName, file.path, seen)
      {
        SoleIsOnce(observed, FileName, file.path, seen);
      }
    }
  }

  lemma {:induction false} FilesAreFineExactlyWhen(files: seq<FileItem>, observed: seq<FileSeen>)
    ensures FileFindings(files, observed) == [] <==> forall i :: 0 <= i < |files| ==> FileFinding(files[i], observed) == []
  {
    hide FileFinding;
    if files != [] {
      var rest := files[..|files| - 1];
      FilesAreFineExactlyWhen(rest, observed);
      assert FileFindings(files, observed) == FileFindings(rest, observed) + FileFinding(files[|files| - 1], observed);
      assert |FileFindings(files, observed)| == |FileFindings(rest, observed)| + |FileFinding(files[|files| - 1], observed)|;
      assert forall i :: 0 <= i < |rest| ==> rest[i] == files[i];
    }
  }

  // ---- Kinds that go by name ----

  lemma {:induction false} NoFindingsFor(kind: string, names: seq<string>, judge: string -> Verdict)
    ensures FindingsFor(kind, names, judge) == [] <==> forall i :: 0 <= i < |names| ==> judge(names[i]).Fine?
  {
    if names != [] {
      var rest := names[..|names| - 1];
      NoFindingsFor(kind, rest, judge);
      assert forall i :: 0 <= i < |rest| ==> rest[i] == names[i];
    }
  }

  ghost predicate UniqueNames<E>(expected: seq<E>, wanted: E -> string) {
    NoDuplicates(NamesOf(expected, wanted))
  }

  lemma {:induction false} FirstOfUnique<E>(expected: seq<E>, wanted: E -> string, k: nat)
    requires k < |expected| && forall i :: 0 <= i < k ==> wanted(expected[i]) != wanted(expected[k])
    ensures First(expected, wanted, wanted(expected[k])) == Some(expected[k])
  {
    if k > 0 {
      assert wanted(expected[0]) != wanted(expected[k]);
      assert forall i :: 0 <= i < k - 1 ==> expected[1..][i] == expected[i + 1];
      FirstOfUnique(expected[1..], wanted, k - 1);
    }
  }

  lemma {:induction false} FirstIsThere<E>(expected: seq<E>, wanted: E -> string, k: nat)
    requires k < |expected|
    ensures var found := First(expected, wanted, wanted(expected[k]));
            found.Some? && found.value in expected && wanted(found.value) == wanted(expected[k])
  {
    if wanted(expected[0]) != wanted(expected[k]) { FirstIsThere(expected[1..], wanted, k - 1); }
  }

  // The entry an item is checked by: the first under its name.
  function Leader<E>(expected: seq<E>, wanted: E -> string, k: nat): (leader: E)
    requires k < |expected|
    ensures leader in expected && wanted(leader) == wanted(expected[k])
    ensures First(expected, wanted, wanted(expected[k])) == Some(leader)
  {
    FirstIsThere(expected, wanted, k);
    First(expected, wanted, wanted(expected[k])).value
  }

  // For every inventoried name, its first entry is satisfied by what was observed once under it; where
  // nothing is inventoried, everything observed is in order by itself.
  ghost predicate Satisfied<E, S>(expected: seq<E>, wanted: E -> string, observed: seq<S>, seen: S -> string,
                                  judge: (Option<E>, Option<S>) -> Verdict) {
    if expected != [] then
      forall i :: 0 <= i < |expected| ==> judge(Some(Leader(expected, wanted, i)), Sole(observed, seen, wanted(expected[i]))).Fine?
    else
      forall i :: 0 <= i < |observed| ==> judge(None, Sole(observed, seen, seen(observed[i]))).Fine?
  }

  lemma KindIsFineExactlyWhen<E, S>(kind: string, expected: seq<E>, wanted: E -> string, observed: seq<S>, seen: S -> string,
                                    judge: (Option<E>, Option<S>) -> Verdict)
    ensures KindFindings(kind, expected, wanted, observed, seen, judge) == [] <==>
      Satisfied(expected, wanted, observed, seen, judge)
  {
    hide First, Sole;
    var all := if expected != [] then NamesOf(expected, wanted) else NamesOf(observed, seen);
    var names := Names(NamesOf(expected, wanted), NamesOf(observed, seen));
    var judged := n => judge(First(expected, wanted, n), Sole(observed, seen, n));
    InOrderIsSorted(PLAIN, Elements(all));
    assert forall n :: n in names <==> n in Elements(names);
    NoFindingsFor(kind, names, judged);
    QuietNames(names, all, judged);
    if expected != [] {
      forall i | 0 <= i < |expected|
        ensures judged(all[i]) == judge(Some(Leader(expected, wanted, i)), Sole(observed, seen, wanted(expected[i])))
      {
      }
    } else {
      forall n ensures First(expected, wanted, n) == None {
        NothingFirst(expected, wanted, n);
      }
    }
  }

  lemma NothingFirst<E>(expected: seq<E>, wanted: E -> string, n: string)
    requires expected == []
    ensures First(expected, wanted, n) == None
  {
  }

  lemma QuietNames(names: seq<string>, all: seq<string>, judge: string -> Verdict)
    requires Elements(names) == Elements(all)
    ensures (forall i :: 0 <= i < |names| ==> judge(names[i]).Fine?) <==> forall i :: 0 <= i < |all| ==> judge(all[i]).Fine?
  {
    assert forall i :: 0 <= i < |names| ==> names[i] in Elements(all);
    assert forall i :: 0 <= i < |all| ==> all[i] in Elements(names);
    if forall i :: 0 <= i < |names| ==> judge(names[i]).Fine? {
      assert forall n :: n in names ==> judge(n).Fine?;
    }
    if forall i :: 0 <= i < |all| ==> judge(all[i]).Fine? {
      assert forall n :: n in all ==> judge(n).Fine?;
    }
  }

  ghost predicate UniqueInventories(request: Request) {
    && UniqueNames(request.validators, Self) && UniqueNames(request.packages, PackageName)
    && UniqueNames(request.services, ServiceName) && UniqueNames(request.boot, ConfigName)
    && UniqueNames(request.pam, ConfigName) && UniqueNames(request.pacman, Self)
  }

  ghost predicate AllSatisfied(request: Request, snapshot: Snapshot) {
    && Satisfied(request.validators, Self, snapshot.validators, ValidatorName, ValidatorVerdict)
    && Satisfied(request.packages, PackageName, snapshot.packages, PackageSeenName, JudgePackage)
    && Satisfied(request.services, ServiceName, snapshot.services, ServiceSeenName, JudgeService)
    && Satisfied(request.boot, ConfigName, snapshot.boot, ConfigSeenName, BootVerdict)
    && Satisfied(request.pam, ConfigName, snapshot.pam, ConfigSeenName, PamVerdict)
    && snapshot.failedUnits == []
    && Satisfied(request.pacman, Self, snapshot.pacman, PacmanName, PacmanVerdict)
  }

  // A report shows no drift exactly when every managed file was observed once as it should be, every
  // other inventory is satisfied and no unit failed.
  lemma NoDriftExactlyWhen(request: Request, snapshot: Snapshot)
    ensures !ReportOf(request, snapshot).drift <==>
      && (forall i :: 0 <= i < |request.files| ==> FileMatches(request.files[i], snapshot.files))
      && AllSatisfied(request, snapshot)
  {
    hide FileFindings, FileFinding, NamedFindings, AllSatisfied, FileMatches;
    FilesAreFineExactlyWhen(request.files, snapshot.files);
    forall i | 0 <= i < |request.files|
      ensures FileFinding(request.files[i], snapshot.files) == [] <==> FileMatches(request.files[i], snapshot.files)
    {
      FileIsFineExactlyWhen(request.files[i], snapshot.files);
    }
    NamedAreFineExactlyWhen(request, snapshot);
    assert |AllFindings(request, snapshot)| == |FileFindings(request.files, snapshot.files)| + |NamedFindings(request, snapshot)|;
  }

  lemma NamedAreFineExactlyWhen(request: Request, snapshot: Snapshot)
    ensures NamedFindings(request, snapshot) == [] <==> AllSatisfied(request, snapshot)
  {
    hide KindFindings, Satisfied, UnitFindings, UniqueNames, JudgePackage, JudgeService;
    KindIsFineExactlyWhen(VALIDATOR, request.validators, Self, snapshot.validators, ValidatorName, ValidatorVerdict);
    KindIsFineExactlyWhen(PACKAGE, request.packages, PackageName, snapshot.packages, PackageSeenName, JudgePackage);
    KindIsFineExactlyWhen(SERVICE, request.services, ServiceName, snapshot.services, ServiceSeenName, JudgeService);
    KindIsFineExactlyWhen(BOOT, request.boot, ConfigName, snapshot.boot, ConfigSeenName, BootVerdict);
    KindIsFineExactlyWhen(PAM, request.pam, ConfigName, snapshot.pam, ConfigSeenName, PamVerdict);
    KindIsFineExactlyWhen(PACMAN, request.pacman, Self, snapshot.pacman, PacmanName, PacmanVerdict);
    NoUnitsNoFindings(snapshot.failedUnits);
    SevenAreEmpty(
      KindFindings(VALIDATOR, request.validators, Self, snapshot.validators, ValidatorName, ValidatorVerdict),
      KindFindings(PACKAGE, request.packages, PackageName, snapshot.packages, PackageSeenName, JudgePackage),
      KindFindings(SERVICE, request.services, ServiceName, snapshot.services, ServiceSeenName, JudgeService),
      KindFindings(BOOT, request.boot, ConfigName, snapshot.boot, ConfigSeenName, BootVerdict),
      KindFindings(PAM, request.pam, ConfigName, snapshot.pam, ConfigSeenName, PamVerdict),
      UnitFindings(InOrder(PLAIN, Elements(snapshot.failedUnits))),
      KindFindings(PACMAN, request.pacman, Self, snapshot.pacman, PacmanName, PacmanVerdict));
    assert NamedFindings(request, snapshot) == [] ==> AllSatisfied(request, snapshot);
  }

  lemma SevenAreEmpty<T>(a: seq<T>, b: seq<T>, c: seq<T>, d: seq<T>, e: seq<T>, f: seq<T>, g: seq<T>)
    ensures a + b + c + d + e + f + g == [] <==>
      a == [] && b == [] && c == [] && d == [] && e == [] && f == [] && g == []
  {
    assert |a + b + c + d + e + f + g| == |a| + |b| + |c| + |d| + |e| + |f| + |g|;
  }

  lemma NoUnitsNoFindings(units: seq<string>)
    ensures UnitFindings(InOrder(PLAIN, Elements(units))) == [] <==> units == []
  {
    InOrderIsSorted(PLAIN, Elements(units));
    var names := InOrder(PLAIN, Elements(units));
    if units != [] {
      assert units[0] in Elements(units);
      assert units[0] in Elements(names);
    }
    if names != [] {
      assert names[0] in Elements(names);
      assert names[0] in Elements(units);
    }
  }

  // ---- A failed observation ----

  // The report drifts, unless nothing but the fingerprint was to be checked.
  lemma FailClosedExactlyWhen(request: Request)
    ensures !FailClosed(request).drift <==>
      && request.fingerprint
      && request.files == [] && request.validators == [] && request.packages == [] && request.services == []
      && request.boot == [] && request.pam == [] && !request.failedUnits && request.pacman == [] && !request.pacnew
  {
    InOrderIsSorted(PLAIN, Elements(request.pacman));
    if request.pacman != [] { assert request.pacman[0] in Elements(request.pacman); }
    var checks := InOrder(PLAIN, Elements(request.pacman));
    if checks != [] { assert checks[0] in Elements(checks); }
    assert |UnavailableFindings(request)| ==
      |request.files| + |request.validators| + |request.packages| + |request.services| + |request.boot| + |request.pam|
      + (if request.failedUnits then 1 else 0) + |checks| + (if request.pacnew then 1 else 0);
  }

  // ---- The order of the lists ----

  lemma {:induction false} MatchingCounts<T>(values: seq<T>, name: T -> string, n: string, x: T)
    ensures multiset(Matching(values, name, n))[x] == if name(x) == n then multiset(values)[x] else 0
  {
    if values != [] {
      MatchingCounts(values[..|values| - 1], name, n, x);
      assert values == values[..|values| - 1] + [values[|values| - 1]];
    }
  }

  lemma SoleIgnoresOrder<T(!new)>(a: seq<T>, b: seq<T>, name: T -> string, n: string)
    requires multiset(a) == multiset(b)
    ensures Sole(a, name, n) == Sole(b, name, n)
  {
    hide Matching;
    var p, q := Matching(a, name, n), Matching(b, name, n);
    forall x: T
      ensures multiset(p)[x] == multiset(q)[x]
    {
      MatchingCounts(a, name, n, x);
      MatchingCounts(b, name, n, x);
    }
    assert multiset(p) == multiset(q);
    assert |p| == |multiset(p)| == |multiset(q)| == |q|;
    if |p| == 1 {
      assert p == [p[0]] && q == [q[0]];
      assert p[0] in multiset(p) && p[0] in multiset(q);
    }
  }

  lemma {:induction false} FirstIsSole<E>(expected: seq<E>, wanted: E -> string, n: string)
    requires UniqueNames(expected, wanted)
    ensures First(expected, wanted, n) == Sole(expected, wanted, n)
  {
    hide Sole, First;
    NoMatch(expected, wanted, n);
    if k :| 0 <= k < |expected| && wanted(expected[k]) == n {
      forall i | 0 <= i < |expected| && i != k
        ensures wanted(expected[i]) != n
      {
        var names := NamesOf(expected, wanted);
        assert names[i] != names[k];
      }
      FirstOfUnique(expected, wanted, k);
      assert Once(expected, wanted, n, expected[k]);
      SoleIsOnce(expected, wanted, n, expected[k]);
    } else {
      NoFirst(expected, wanted, n);
      NoSole(expected, wanted, n);
    }
  }

  lemma {:induction false} NoFirst<E>(expected: seq<E>, wanted: E -> string, n: string)
    requires forall i :: 0 <= i < |expected| ==> wanted(expected[i]) != n
    ensures First(expected, wanted, n) == None
  {
    if expected != [] { NoFirst(expected[1..], wanted, n); }
  }

  lemma NoSole<E>(expected: seq<E>, wanted: E -> string, n: string)
    requires forall i :: 0 <= i < |expected| ==> wanted(expected[i]) != n
    ensures Sole(expected, wanted, n) == None
  {
    NoMatch(expected, wanted, n);
  }

  lemma SameNames<T>(a: seq<T>, b: seq<T>, name: T -> string)
    requires multiset(a) == multiset(b)
    ensures Elements(NamesOf(a, name)) == Elements(NamesOf(b, name))
    ensures NamesOf(a, name) == [] <==> NamesOf(b, name) == []
  {
    SameMembers(a, b);
    assert forall x :: x in a <==> x in Elements(a);
    assert forall x :: x in b <==> x in Elements(b);
    var p, q := NamesOf(a, name), NamesOf(b, name);
    forall i | 0 <= i < |p| ensures p[i] in q {
      assert a[i] in b;
      var j :| 0 <= j < |b| && b[j] == a[i];
      assert q[j] == p[i];
    }
    forall i | 0 <= i < |q| ensures q[i] in p {
      assert b[i] in a;
      var j :| 0 <= j < |a| && a[j] == b[i];
      assert p[j] == q[i];
    }
    assert |a| == |multiset(a)| == |multiset(b)| == |b|;
  }

  lemma {:induction false} SameFindingsFor(kind: string, names: seq<string>, p: string -> Verdict, q: string -> Verdict)
    requires forall n :: p(n) == q(n)
    ensures FindingsFor(kind, names, p) == FindingsFor(kind, names, q)
  {
    if names != [] { SameFindingsFor(kind, names[..|names| - 1], p, q); }
  }

  lemma KindIgnoresOrder<E(!new), S(!new)>(kind: string, a: seq<E>, b: seq<E>, wanted: E -> string, c: seq<S>, d: seq<S>,
                                           seen: S -> string, judge: (Option<E>, Option<S>) -> Verdict)
    requires multiset(a) == multiset(b) && multiset(c) == multiset(d)
    requires UniqueNames(a, wanted) && UniqueNames(b, wanted)
    ensures KindFindings(kind, a, wanted, c, seen, judge) == KindFindings(kind, b, wanted, d, seen, judge)
  {
    hide First, Sole, UniqueNames, InOrder, FindingsFor;
    SameNames(a, b, wanted);
    SameNames(c, d, seen);
    var p := n => judge(First(a, wanted, n), Sole(c, seen, n));
    var q := n => judge(First(b, wanted, n), Sole(d, seen, n));
    forall n
      ensures p(n) == q(n)
    {
      FirstIsSole(a, wanted, n);
      FirstIsSole(b, wanted, n);
      SoleIgnoresOrder(a, b, wanted, n);
      SoleIgnoresOrder(c, d, seen, n);
    }
    SameFindingsFor(kind, Names(NamesOf(a, wanted), NamesOf(c, seen)), p, q);
  }

  lemma {:induction false} FileFindingsSplit(a: seq<FileItem>, b: seq<FileItem>, observed: seq<FileSeen>)
    ensures FileFindings(a + b, observed) == FileFindings(a, observed) + FileFindings(b, observed)
  {
    hide FileFinding;
    if b == [] {
      assert a + b == a;
    } else {
      var rest, last := b[..|b| - 1], b[|b| - 1];
      FileFindingsSplit(a, rest, observed);
      assert (a + b)[..|a + b| - 1] == a + rest && (a + b)[|a + b| - 1] == last;
      AppendIsAssociative(FileFindings(a, observed), FileFindings(rest, observed), FileFinding(last, observed));
    }
  }

  lemma {:induction false} FilesInAnyOrder(a: seq<FileItem>, b: seq<FileItem>, observed: seq<FileSeen>)
    requires multiset(a) == multiset(b)
    ensures multiset(FileFindings(a, observed)) == multiset(FileFindings(b, observed))
  {
    hide FileFinding, FileFindings;
    assert |a| == |multiset(a)| == |multiset(b)| == |b|;
    if a == [] {
      assert b == [];
    } else {
      assert a[0] in multiset(b);
      var i :| 0 <= i < |b| && b[i] == a[0];
      var rest := b[..i] + b[i + 1..];
      WithoutOne(a, b, i);
      FilesInAnyOrder(a[1..], rest, observed);
      OneFileMoved(b[..i], a[0], b[i + 1..], observed);
      assert a == [a[0]] + a[1..] && b == b[..i] + ([a[0]] + b[i + 1..]);
      FileFindingsSplit([a[0]], a[1..], observed);
    }
  }

  lemma WithoutOne<T>(a: seq<T>, b: seq<T>, i: nat)
    requires a != [] && i < |b| && b[i] == a[0] && multiset(a) == multiset(b)
    ensures multiset(a[1..]) == multiset(b[..i] + b[i + 1..])
  {
    assert a == [a[0]] + a[1..] && b == b[..i] + ([a[0]] + b[i + 1..]);
    assert multiset(a) == multiset{a[0]} + multiset(a[1..]);
    assert multiset(b) == multiset(b[..i]) + (multiset{a[0]} + multiset(b[i + 1..]));
    assert multiset(b[..i] + b[i + 1..]) == multiset(b[..i]) + multiset(b[i + 1..]);
    assert multiset(a[1..]) == multiset(a) - multiset{a[0]};
    assert multiset(b[..i] + b[i + 1..]) == multiset(b) - multiset{a[0]};
  }

  lemma OneFileMoved(before: seq<FileItem>, file: FileItem, after: seq<FileItem>, observed: seq<FileSeen>)
    ensures multiset(FileFindings(before + ([file] + after), observed))
         == multiset(FileFindings([file], observed)) + multiset(FileFindings(before + after, observed))
  {
    hide FileFinding, FileFindings;
    FileFindingsSplit(before, [file] + after, observed);
    FileFindingsSplit([file], after, observed);
    FileFindingsSplit(before, after, observed);
    MovedToFront(FileFindings(before, observed), FileFindings([file], observed), FileFindings(after, observed));
  }

  lemma MovedToFront<T>(a: seq<T>, b: seq<T>, c: seq<T>)
    ensures multiset(a + (b + c)) == multiset(b) + multiset(a + c)
  {
    assert multiset(a + (b + c)) == multiset(a) + (multiset(b) + multiset(c));
  }

  lemma {:induction false} FilesSeenInAnyOrder(files: seq<FileItem>, a: seq<FileSeen>, b: seq<FileSeen>)
    requires multiset(a) == multiset(b)
    ensures FileFindings(files, a) == FileFindings(files, b)
  {
    hide Sole, JudgeFile;
    if files != [] {
      FilesSeenInAnyOrder(files[..|files| - 1], a, b);
      SoleIgnoresOrder(a, b, FileName, files[|files| - 1].path);
    }
  }

  // ---- The sort key determines the finding ----

  ghost predicate NulFree(s: string) {
    '\0' !in s
  }

  ghost predicate Plain(f: Finding) {
    NulFree(f.kind) && NulFree(f.path) && NulFree(f.subject) && NulFree(f.category) && NulFree(f.code) && NulFree(f.backup)
  }

  // The fixed texts have no NUL; so a finding has none unless a name, a path or a backup does.
  lemma FixedTextsArePlain(s: string)
    requires s in [FILE, VALIDATOR, PACKAGE, SERVICE, BOOT, PAM, FAILED_UNIT, PACMAN, PACNEW, OBSERVATION, UNAVAILABLE,
                   NONE, DESIRED_STATE, POST_APPLY, UNMANAGED, UNKNOWN]
    ensures NulFree(s)
  {
  }

  lemma CodesArePlain(s: string)
    requires s in ["validator-unknown", "validator-failed", "package-unknown", "package-missing", "package-version",
                   "service-unknown", "service-state", "boot-unknown", "boot-drift", "pam-unknown", "pam-drift",
                   "failed-unit-unknown", "failed-unit", "pacman-integrity-unknown", "pacman-integrity", "managed-file-"]
    ensures NulFree(s)
  {
  }

  lemma SplitAtNul(a: string, b: string, x: string, y: string)
    requires NulFree(a) && NulFree(b) && a + ("\0" + x) == b + ("\0" + y)
    ensures a == b && x == y
  {
    var s, t := a + ("\0" + x), b + ("\0" + y);
    assert s[|a|] == '\0' && t[|b|] == '\0';
    assert forall k :: 0 <= k < |a| ==> s[k] == a[k] && a[k] in a;
    assert forall k :: 0 <= k < |b| ==> t[k] == b[k] && b[k] in b;
    assert |a| == |b|;
    assert s[..|a|] == a && t[..|b|] == b;
    assert s[|a| + 1..] == x && t[|b| + 1..] == y;
  }

  lemma KeyDetermines(f: Finding, g: Finding)
    requires Plain(f) && Plain(g) && Key(f) == Key(g)
    ensures f == g
  {
    hide NulFree;
    var f5, g5 := f.backup + ("\0" + SEVERITY), g.backup + ("\0" + SEVERITY);
    var f4, g4 := f.code + ("\0" + f5), g.code + ("\0" + g5);
    var f3, g3 := f.category + ("\0" + f4), g.category + ("\0" + g4);
    var f2, g2 := f.subject + ("\0" + f3), g.subject + ("\0" + g3);
    var f1, g1 := f.path + ("\0" + f2), g.path + ("\0" + g2);
    SplitAtNul(f.kind, g.kind, f1, g1);
    SplitAtNul(f.path, g.path, f2, g2);
    SplitAtNul(f.subject, g.subject, f3, g3);
    SplitAtNul(f.category, g.category, f4, g4);
    SplitAtNul(f.code, g.code, f5, g5);
    SplitAtNul(f.backup, g.backup, SEVERITY, SEVERITY);
  }

  lemma FindingOrder()
    ensures WeakOrder(FindingLess)
  {
    hide Key, Less;
    forall a: Finding, b: Finding, c: Finding
      ensures !FindingLess(a, a) && (FindingLess(a, b) && !FindingLess(c, b) ==> !FindingLess(c, a))
    {
      TextOrder(Key(a), Key(b), Key(c));
    }
  }

  lemma FindingsInAnyOrder(a: seq<Finding>, b: seq<Finding>)
    requires multiset(a) == multiset(b) && forall f :: f in a ==> Plain(f)
    ensures SortBy(FindingLess, a) == SortBy(FindingLess, b)
  {
    hide Key, Less, Plain, WeakOrder, SortBy;
    FindingOrder();
    forall f, g | f in a && g in a && !FindingLess(f, g) && !FindingLess(g, f)
      ensures f == g
    {
      TextOrder(Key(f), Key(g), Key(f));
      KeyDetermines(f, g);
    }
    SortIgnoresOrder(FindingLess, a, b);
  }

  ghost predicate Permuted(a: Request, b: Request) {
    && multiset(a.files) == multiset(b.files) && multiset(a.validators) == multiset(b.validators)
    && multiset(a.packages) == multiset(b.packages) && multiset(a.services) == multiset(b.services)
    && multiset(a.boot) == multiset(b.boot) && multiset(a.pam) == multiset(b.pam)
    && multiset(a.pacman) == multiset(b.pacman)
    && a.failedUnits == b.failedUnits && a.pacnew == b.pacnew && a.fingerprint == b.fingerprint
  }

  ghost predicate PermutedSnapshot(a: Snapshot, b: Snapshot) {
    && multiset(a.files) == multiset(b.files) && multiset(a.validators) == multiset(b.validators)
    && multiset(a.packages) == multiset(b.packages) && multiset(a.services) == multiset(b.services)
    && multiset(a.boot) == multiset(b.boot) && multiset(a.pam) == multiset(b.pam)
    && multiset(a.pacman) == multiset(b.pacman) && multiset(a.failedUnits) == multiset(b.failedUnits)
    && multiset(a.pacnew) == multiset(b.pacnew) && a.fingerprint == b.fingerprint
  }

  lemma NamedInAnyOrder(a: Request, b: Request, s: Snapshot, t: Snapshot)
    requires Permuted(a, b) && PermutedSnapshot(s, t) && UniqueInventories(a) && UniqueInventories(b)
    ensures NamedFindings(a, s) == NamedFindings(b, t)
  {
    hide KindFindings, UnitFindings, UniqueNames, InOrder, JudgePackage, JudgeService;
    KindIgnoresOrder(VALIDATOR, a.validators, b.validators, Self, s.validators, t.validators, ValidatorName, ValidatorVerdict);
    KindIgnoresOrder(PACKAGE, a.packages, b.packages, PackageName, s.packages, t.packages, PackageSeenName, JudgePackage);
    KindIgnoresOrder(SERVICE, a.services, b.services, ServiceName, s.services, t.services, ServiceSeenName, JudgeService);
    KindIgnoresOrder(BOOT, a.boot, b.boot, ConfigName, s.boot, t.boot, ConfigSeenName, BootVerdict);
    KindIgnoresOrder(PAM, a.pam, b.pam, ConfigName, s.pam, t.pam, ConfigSeenName, PamVerdict);
    KindIgnoresOrder(PACMAN, a.pacman, b.pacman, Self, s.pacman, t.pacman, PacmanName, PacmanVerdict);
    SameMembers(s.failedUnits, t.failedUnits);
  }

  ghost predicate Clean(names: seq<string>) {
    forall n :: n in names ==> NulFree(n)
  }

  ghost predicate CleanRequest(request: Request) {
    && (forall file :: file in request.files ==> NulFree(file.path) && NulFree(file.backup))
    && Clean(request.validators) && Clean(NamesOf(request.packages, PackageName)) && Clean(NamesOf(request.services, ServiceName))
    && Clean(NamesOf(request.boot, ConfigName)) && Clean(NamesOf(request.pam, ConfigName)) && Clean(request.pacman)
  }

  ghost predicate CleanSnapshot(snapshot: Snapshot) {
    && Clean(NamesOf(snapshot.validators, ValidatorName)) && Clean(NamesOf(snapshot.packages, PackageSeenName))
    && Clean(NamesOf(snapshot.services, ServiceSeenName)) && Clean(NamesOf(snapshot.boot, ConfigSeenName))
    && Clean(NamesOf(snapshot.pam, ConfigSeenName)) && Clean(NamesOf(snapshot.pacman, PacmanName))
    && Clean(snapshot.failedUnits)
  }

  ghost predicate AllPlain(findings: seq<Finding>) {
    forall f :: f in findings ==> Plain(f)
  }

  lemma EmptyIsPlain()
    ensures NulFree("")
  {
  }

  lemma {:induction false} FindingsForArePlain(kind: string, names: seq<string>, judge: string -> Verdict)
    requires NulFree(kind) && Clean(names)
    requires forall n :: judge(n).Fault? ==> NulFree(judge(n).code) && NulFree(judge(n).category)
    ensures AllPlain(FindingsFor(kind, names, judge))
  {
    hide NulFree;
    EmptyIsPlain();
    if names != [] { FindingsForArePlain(kind, names[..|names| - 1], judge); }
  }

  lemma KindIsPlain<E(!new), S(!new)>(kind: string, expected: seq<E>, wanted: E -> string, observed: seq<S>, seen: S -> string,
                                      judge: (Option<E>, Option<S>) -> Verdict)
    requires NulFree(kind) && Clean(NamesOf(expected, wanted)) && Clean(NamesOf(observed, seen))
    requires forall want, found :: judge(want, found).Fault? ==> NulFree(judge(want, found).code) && NulFree(judge(want, found).category)
    ensures AllPlain(KindFindings(kind, expected, wanted, observed, seen, judge))
  {
    hide NulFree, First, Sole, FindingsFor, AllPlain;
    var all := if expected != [] then NamesOf(expected, wanted) else NamesOf(observed, seen);
    var names := Names(NamesOf(expected, wanted), NamesOf(observed, seen));
    InOrderIsSorted(PLAIN, Elements(all));
    forall n | n in names ensures NulFree(n) {
      assert n in Elements(names);
    }
    var judged := n => judge(First(expected, wanted, n), Sole(observed, seen, n));
    forall n
      ensures judged(n).Fault? ==> NulFree(judged(n).code) && NulFree(judged(n).category)
    {
      var verdict := judge(First(expected, wanted, n), Sole(observed, seen, n));
      assert judged(n) == verdict;
    }
    FindingsForArePlain(kind, names, judged);
  }

  lemma ValidatorVerdictsArePlain()
    ensures forall want, found :: ValidatorVerdict(want, found).Fault? ==>
      NulFree(ValidatorVerdict(want, found).code) && NulFree(ValidatorVerdict(want, found).category)
  {
    hide NulFree;
    CodesArePlain("validator-unknown");
    CodesArePlain("validator-failed");
    FixedTextsArePlain(DESIRED_STATE);
    FixedTextsArePlain(UNKNOWN);
  }

  lemma PackageVerdictsArePlain()
    ensures forall want, found :: JudgePackage(want, found).Fault? ==>
      NulFree(JudgePackage(want, found).code) && NulFree(JudgePackage(want, found).category)
  {
    hide NulFree;
    CodesArePlain("package-unknown");
    CodesArePlain("package-missing");
    CodesArePlain("package-version");
    FixedTextsArePlain(DESIRED_STATE);
    FixedTextsArePlain(UNKNOWN);
  }

  lemma ServiceVerdictsArePlain()
    ensures forall want, found :: JudgeService(want, found).Fault? ==>
      NulFree(JudgeService(want, found).code) && NulFree(JudgeService(want, found).category)
  {
    hide NulFree;
    CodesArePlain("service-unknown");
    CodesArePlain("service-state");
    FixedTextsArePlain(DESIRED_STATE);
    FixedTextsArePlain(UNKNOWN);
  }

  lemma PacmanVerdictsArePlain()
    ensures forall want, found :: PacmanVerdict(want, found).Fault? ==>
      NulFree(PacmanVerdict(want, found).code) && NulFree(PacmanVerdict(want, found).category)
  {
    hide NulFree;
    CodesArePlain("pacman-integrity-unknown");
    CodesArePlain("pacman-integrity");
    FixedTextsArePlain(DESIRED_STATE);
    FixedTextsArePlain(UNKNOWN);
  }

  lemma ConfigVerdictsArePlain()
    ensures forall want, found :: BootVerdict(want, found).Fault? ==>
      NulFree(BootVerdict(want, found).code) && NulFree(BootVerdict(want, found).category)
    ensures forall want, found :: PamVerdict(want, found).Fault? ==>
      NulFree(PamVerdict(want, found).code) && NulFree(PamVerdict(want, found).category)
  {
    hide NulFree;
    assert BOOT + "-unknown" == "boot-unknown" && BOOT + "-drift" == "boot-drift";
    assert PAM + "-unknown" == "pam-unknown" && PAM + "-drift" == "pam-drift";
    CodesArePlain("boot-unknown");
    CodesArePlain("boot-drift");
    CodesArePlain("pam-unknown");
    CodesArePlain("pam-drift");
    FixedTextsArePlain(DESIRED_STATE);
    FixedTextsArePlain(UNKNOWN);
  }

  lemma ClassIsPlain(file: FileItem, seen: FileSeen)
    ensures NulFree(ClassOf(file, seen)) && NulFree("managed-file-" + ClassOf(file, seen))
  {
    FixedTextsArePlain(ClassOf(file, seen));
    CodesArePlain("managed-file-");
  }

  lemma {:induction false} FilesArePlain(files: seq<FileItem>, observed: seq<FileSeen>)
    requires forall file :: file in files ==> NulFree(file.path) && NulFree(file.backup)
    ensures AllPlain(FileFindings(files, observed))
  {
    hide NulFree, ClassOf, Sole;
    if files != [] {
      var last := files[|files| - 1];
      FilesArePlain(files[..|files| - 1], observed);
      FixedTextsArePlain(FILE);
      FixedTextsArePlain(UNAVAILABLE);
      FixedTextsArePlain(UNKNOWN);
      var found := Sole(observed, FileName, last.path);
      if found.Some? { ClassIsPlain(last, found.value); }
    }
  }

  lemma UnitsArePlain(units: seq<string>)
    requires Clean(units)
    ensures AllPlain(UnitFindings(InOrder(PLAIN, Elements(units))))
  {
    hide NulFree;
    var names := InOrder(PLAIN, Elements(units));
    InOrderIsSorted(PLAIN, Elements(units));
    EmptyIsPlain();
    FixedTextsArePlain(FAILED_UNIT);
    FixedTextsArePlain(DESIRED_STATE);
    FixedTextsArePlain(UNKNOWN);
    CodesArePlain("failed-unit");
    CodesArePlain("failed-unit-unknown");
    forall i | 0 <= i < |names|
      ensures Plain(JudgeUnit(names[i]))
    {
      assert names[i] in Elements(names);
    }
  }

  lemma SelfNames(names: seq<string>)
    ensures NamesOf(names, Self) == names
  {
  }

  lemma FindingsArePlain(request: Request, snapshot: Snapshot)
    requires CleanRequest(request) && CleanSnapshot(snapshot)
    ensures AllPlain(AllFindings(request, snapshot))
  {
    hide NulFree, KindFindings, UnitFindings, FileFindings, Plain, Clean, JudgePackage, JudgeService, ValidatorVerdict, BootVerdict,
      PamVerdict, PacmanVerdict;
    FilesArePlain(request.files, snapshot.files);
    ValidatorVerdictsArePlain();
    PackageVerdictsArePlain();
    ServiceVerdictsArePlain();
    PacmanVerdictsArePlain();
    ConfigVerdictsArePlain();
    SelfNames(request.validators);
    SelfNames(request.pacman);
    FixedTextsArePlain(VALIDATOR);
    FixedTextsArePlain(PACKAGE);
    FixedTextsArePlain(SERVICE);
    FixedTextsArePlain(BOOT);
    FixedTextsArePlain(PAM);
    FixedTextsArePlain(PACMAN);
    KindIsPlain(VALIDATOR, request.validators, Self, snapshot.validators, ValidatorName, ValidatorVerdict);
    KindIsPlain(PACKAGE, request.packages, PackageName, snapshot.packages, PackageSeenName, JudgePackage);
    KindIsPlain(SERVICE, request.services, ServiceName, snapshot.services, ServiceSeenName, JudgeService);
    KindIsPlain(BOOT, request.boot, ConfigName, snapshot.boot, ConfigSeenName, BootVerdict);
    KindIsPlain(PAM, request.pam, ConfigName, snapshot.pam, ConfigSeenName, PamVerdict);
    KindIsPlain(PACMAN, request.pacman, Self, snapshot.pacman, PacmanName, PacmanVerdict);
    UnitsArePlain(snapshot.failedUnits);
  }

  // With names inventoried once and no NUL in any name, path or backup, the report does not depend on the
  // order of any list of the request or of the snapshot.
  lemma {:induction false} ReportIgnoresOrder(a: Request, b: Request, s: Snapshot, t: Snapshot)
    requires Permuted(a, b) && PermutedSnapshot(s, t) && UniqueInventories(a) && UniqueInventories(b)
    requires CleanRequest(a) && CleanSnapshot(s)
    ensures ReportOf(a, s) == ReportOf(b, t)
  {
    hide NamedFindings, FileFindings, Plain, UniqueInventories, CleanRequest, CleanSnapshot, SortBy, InOrder, FindingLess;
    FindingsArePlain(a, s);
    NamedInAnyOrder(a, b, s, t);
    FilesInAnyOrder(a.files, b.files, s.files);
    FilesSeenInAnyOrder(b.files, s.files, t.files);
    FindingsInAnyOrder(AllFindings(a, s), AllFindings(b, t));
    assert |AllFindings(a, s)| == |multiset(AllFindings(a, s))| == |multiset(AllFindings(b, t))| == |AllFindings(b, t)|;
    SameMembers(s.pacnew, t.pacnew);
    SamePacnew(s.pacnew, t.pacnew);
  }
}
