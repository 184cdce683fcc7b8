// Reading `git status --porcelain=v1 -z` (internal/gitx/checkout.go:190-248, 280-324). A byte is a char.
module Porcelain {
  import opened Text

  const NUL: char := '\0'

  // ---- Records ----

  ghost predicate NulFree(s: string) {
    forall k :: 0 <= k < |s| ==> s[k] != NUL
  }

  function RecordEnd(data: string): (end: nat)
    ensures end <= |data| && NulFree(data[..end])
    ensures end < |data| ==> data[end] == NUL
  {
    if data == "" || data[0] == NUL then 0
    else
      var end := 1 + RecordEnd(data[1..]);
      assert data[..end] == [data[0]] + data[1..][..end - 1];
      end
  }

  // nextNULRecord
  function Cut(data: string): (r: (string, string))
    ensures |r.1| <= |data|
    ensures data != "" ==> |r.1| < |data|
    ensures data == r.0 + r.1 || data == r.0 + ([NUL] + r.1)
    ensures NulFree(r.0)
  {
    var end := RecordEnd(data);
    if end < |data| then (data[..end], data[end + 1..])
    else (data, "")
  }

  // Two status letters, a space, a path.
  predicate IsStatus(record: string) {
    |record| >= 3 && record[2] == ' '
  }

  predicate Either(record: string, letter: char)
    requires IsStatus(record)
  {
    record[0] == letter || record[1] == letter
  }

  datatype Class = Untracked | Ignored | Unmerged | Renamed | Copied | Added | Deleted | Modified | Other

  function ClassOf(record: string): Class
    requires IsStatus(record)
  {
    var x, y := record[0], record[1];
    if x == '?' && y == '?' then Untracked
    else if x == '!' && y == '!' then Ignored
    else if x == 'U' || y == 'U' || (x == y && (x == 'A' || x == 'D')) then Unmerged
    else if x == 'R' || y == 'R' then Renamed
    else if x == 'C' || y == 'C' then Copied
    else if x == 'A' || y == 'A' then Added
    else if x == 'D' || y == 'D' then Deleted
    else if x == 'M' || y == 'M' || x == 'T' || y == 'T' then Modified
    else Other
  }

  // The two readers' ideas of when an old path follows.
  predicate CountsOldPath(record: string)
    requires IsStatus(record)
  {
    ClassOf(record) == Renamed || ClassOf(record) == Copied
  }

  predicate ListsOldPath(record: string)
    requires IsStatus(record)
  {
    Either(record, 'R') || Either(record, 'C')
  }

  // ---- Counting ----

  datatype Counts = Counts(
    entries: nat,
    untracked: nat,
    ignored: nat,
    unmerged: nat,
    renamed: nat,
    copied: nat,
    added: nat,
    deleted: nat,
    modified: nat,
    other: nat)
  {
    function Plus(kind: Class): Counts {
      var c := this.(entries := entries + 1);
      match kind
      case Untracked => c.(untracked := untracked + 1)
      case Ignored => c.(ignored := ignored + 1)
      case Unmerged => c.(unmerged := unmerged + 1)
      case Renamed => c.(renamed := renamed + 1)
      case Copied => c.(copied := copied + 1)
      case Added => c.(added := added + 1)
      case Deleted => c.(deleted := deleted + 1)
      case Modified => c.(modified := modified + 1)
      case Other => c.(other := other + 1)
    }

    function Sum(): nat {
      untracked + ignored + unmerged + renamed + copied + added + deleted + modified + other
    }
  }

  const NONE := Counts(0, 0, 0, 0, 0, 0, 0, 0, 0, 0)

  // The status records of a stream, as the counting reader takes them: an old path is skipped.
  function CountedRecords(data: string, renamePath: bool): seq<string>
    decreases |data|
  {
    if data == "" then []
    else
      var (record, rest) := Cut(data);
      if renamePath then CountedRecords(rest, false)
      else if !IsStatus(record) then CountedRecords(rest, false)
      else [record] + CountedRecords(rest, CountsOldPath(record))
  }

  function Tally(records: seq<string>): Counts
    requires forall k :: 0 <= k < |records| ==> IsStatus(records[k])
  {
    if records == [] then NONE
    else Tally(records[..|records| - 1]).Plus(ClassOf(records[|records| - 1]))
  }

  lemma {:induction false} CountedAreStatus(data: string, renamePath: bool)
    ensures forall k :: 0 <= k < |CountedRecords(data, renamePath)| ==> IsStatus(CountedRecords(data, renamePath)[k])
    decreases |data|
  {
    if data != "" {
      var (record, rest) := Cut(data);
      CountedAreStatus(rest, false);
      if IsStatus(record) { CountedAreStatus(rest, CountsOldPath(record)); }
    }
  }

  method ParseStatusPorcelain(input: string) returns (counts: Counts)
    ensures forall k :: 0 <= k < |CountedRecords(input, false)| ==> IsStatus(CountedRecords(input, false)[k])
    ensures counts == Tally(CountedRecords(input, false))
  {
    hide ClassOf;
    CountedAreStatus(input, false);
    counts := NONE;
    var data, renamePath := input, false;
    ghost var seen: seq<string> := [];
    while data != ""
      invariant CountedRecords(input, false) == seen + CountedRecords(data, renamePath)
      invariant forall k :: 0 <= k < |seen| ==> IsStatus(seen[k])
      invariant counts == Tally(seen)
      decreases |data|
    {
      var (record, rest) := Cut(data);
      data := rest;
      if renamePath {
        renamePath := false;
        continue;
      }
      if |record| < 3 || record[2] != ' ' { continue; }
      AppendIsAssociative(seen, [record], CountedRecords(rest, CountsOldPath(record)));
      counts := CountOne(counts, record[0], record[1], record);
      assert (seen + [record])[..|seen|] == seen;
      seen := seen + [record];
      renamePath := CountsOldPath(record);
    }
    assert seen + [] == seen;
  }

  // The switch over the two letters.
  method CountOne(before: Counts, x: char, y: char, ghost record: string) returns (counts: Counts)
    requires IsStatus(record) && record[0] == x && record[1] == y
    ensures counts == before.Plus(ClassOf(record))
  {
    counts := before.(entries := before.entries + 1);
    if x == '?' && y == '?' {
      counts := counts.(untracked := counts.untracked + 1);
    } else if x == '!' && y == '!' {
      counts := counts.(ignored := counts.ignored + 1);
    } else if x == 'U' || y == 'U' || (x == y && (x == 'A' || x == 'D')) {
      counts := counts.(unmerged := counts.unmerged + 1);
    } else if x == 'R' || y == 'R' {
      counts := counts.(renamed := counts.renamed + 1);
    } else if x == 'C' || y == 'C' {
      counts := counts.(copied := counts.copied + 1);
    } else if x == 'A' || y == 'A' {
      counts := counts.(added := counts.added + 1);
    } else if x == 'D' || y == 'D' {
      counts := counts.(deleted := counts.deleted + 1);
    } else if x == 'M' || y == 'M' || x == 'T' || y == 'T' {
      counts := counts.(modified := counts.modified + 1);
    } else {
      counts := counts.(other := counts.other + 1);
    }
  }

  // Which letters give which class; of two letters the class that comes first counts.
  lemma ClassIsByLetters(record: string)
    requires IsStatus(record)
    ensures var x, y, c := record[0], record[1], ClassOf(record);
            var either := (letter: char) => x == letter || y == letter;
            var known := record[..2] == "??" || record[..2] == "!!";
            var unmerged := either('U') || record[..2] == "AA" || record[..2] == "DD";
            var moved := either('R') || either('C');
            && (c == Untracked <==> record[..2] == "??")
            && (c == Ignored <==> record[..2] == "!!")
            && (c == Unmerged <==> unmerged)
            && (c == Renamed <==> !unmerged && either('R'))
            && (c == Copied <==> !unmerged && either('C') && !either('R'))
            && (c == Added <==> !unmerged && !moved && either('A'))
            && (c == Deleted <==> !unmerged && !moved && either('D') && !either('A'))
            && (c == Modified <==> !unmerged && !moved && (either('M') || either('T')) && !either('A') && !either('D'))
            && (c == Other <==> !known && !unmerged && !moved && !either('A') && !either('D') && !either('M') && !either('T'))
  {
    var start := record[..2];
    assert start[0] == record[0] && start[1] == record[1] && |start| == 2;
    assert start == [record[0], record[1]];
  }

  // On any bytes, every entry is counted in exactly one class.
  lemma {:induction false} EntriesAreTheSum(records: seq<string>)
    requires forall k :: 0 <= k < |records| ==> IsStatus(records[k])
    ensures Tally(records).entries == |records| == Tally(records).Sum()
  {
    if records != [] { EntriesAreTheSum(records[..|records| - 1]); }
  }

  // ---- Listing paths ----

  function Nonempty(path: string): set<string> {
    if path == "" then {} else {path}
  }

  function StatusPaths(data: string): set<string>
    decreases |data|
  {
    if data == "" then {}
    else
      var (record, rest) := Cut(data);
      if !IsStatus(record) then StatusPaths(rest)
      else if !ListsOldPath(record) || rest == "" then Nonempty(record[3..]) + StatusPaths(rest)
      else
        var (oldPath, more) := Cut(rest);
        Nonempty(record[3..]) + Nonempty(oldPath) + StatusPaths(more)
  }

  method ParseStatusPaths(input: string) returns (paths: set<string>)
    ensures paths == StatusPaths(input)
  {
    hide Cut, NulFree;
    paths := {};
    var data := input;
    while data != ""
      invariant StatusPaths(input) == paths + StatusPaths(data)
      decreases |data|
    {
      ghost var before := StatusPaths(data);
      var (record, rest) := Cut(data);
      assert before == if !IsStatus(record) then StatusPaths(rest)
        else if !ListsOldPath(record) || rest == "" then Nonempty(record[3..]) + StatusPaths(rest)
        else Nonempty(record[3..]) + Nonempty(Cut(rest).0) + StatusPaths(Cut(rest).1);
      data := rest;
      if |record| < 3 || record[2] != ' ' { continue; }
      if record[3..] != "" { paths := paths + {record[3..]}; }
      if record[0] != 'R' && record[1] != 'R' && record[0] != 'C' && record[1] != 'C' { continue; }
      if data == "" { continue; }
      var (oldPath, more) := Cut(data);
      data := more;
      if oldPath != "" { paths := paths + {oldPath}; }
    }
  }

  function NulPaths(data: string): set<string>
    decreases |data|
  {
    if data == "" then {} else Nonempty(Cut(data).0) + NulPaths(Cut(data).1)
  }

  method ParseNulPaths(input: string) returns (paths: set<string>)
    ensures paths == NulPaths(input)
  {
    paths := {};
    var data := input;
    while data != ""
      invariant NulPaths(input) == paths + NulPaths(data)
      decreases |data|
    {
      var (record, rest) := Cut(data);
      data := rest;
      if record != "" { paths := paths + {record}; }
    }
  }

  // ---- What git prints ----

  // An entry of git-status(1), porcelain format version 1 with -z: a renamed or copied entry carries the
  // path it came from, any other does not.
  datatype Entry = Entry(x: char, y: char, path: string, from: Option<string>)
  {
    function Record(): string { [x, y, ' '] + path }

    ghost predicate Valid() {
      && x != NUL && y != NUL
      && path != "" && NulFree(path)
      && (from.Some? <==> (x in "RC" || y in "RC"))
      && (from.Some? ==> from.value != "" && NulFree(from.value) && x != 'U' && y != 'U')
    }
  }

  function Print(entries: seq<Entry>): string {
    if entries == [] then ""
    else
      entries[0].Record() + ([NUL] + (match entries[0].from
                                      case None => Print(entries[1..])
                                      case Some(path) => path + ([NUL] + Print(entries[1..]))))
  }

  function Records(entries: seq<Entry>): seq<string> {
    seq(|entries|, k requires 0 <= k < |entries| => entries[k].Record())
  }

  function PathsOf(entries: seq<Entry>): set<string> {
    if entries == [] then {}
    else {entries[0].path} + (if entries[0].from.Some? then {entries[0].from.value} else {}) + PathsOf(entries[1..])
  }

  lemma {:induction false} CutPrinted(record: string, rest: string)
    requires NulFree(record)
    ensures Cut(record + ([NUL] + rest)) == (record, rest)
  {
    RecordEndIs(record, rest);
    var data := record + ([NUL] + rest);
    assert data[..|record|] == record && data[|record| + 1..] == rest;
  }

  lemma {:induction false} RecordEndIs(record: string, rest: string)
    requires NulFree(record)
    ensures RecordEnd(record + ([NUL] + rest)) == |record|
  {
    if record != "" {
      var data := record + ([NUL] + rest);
      assert data[0] == record[0] && data[1..] == record[1..] + ([NUL] + rest);
      RecordEndIs(record[1..], rest);
    }
  }

  lemma EntryIsRead(entry: Entry)
    requires entry.Valid()
    ensures IsStatus(entry.Record()) && NulFree(entry.Record()) && entry.Record()[3..] == entry.path
    ensures CountsOldPath(entry.Record()) == ListsOldPath(entry.Record()) == entry.from.Some?
  {
  }

  // Both readers undo the printer: one takes each entry once, skipping old paths, the other finds exactly
  // the new and old paths.
  lemma {:induction false} ReadersUndoThePrinter(entries: seq<Entry>)
    requires forall k :: 0 <= k < |entries| ==> entries[k].Valid()
    ensures CountedRecords(Print(entries), false) == Records(entries)
    ensures StatusPaths(Print(entries)) == PathsOf(entries)
  {
    hide Entry.Valid, CountsOldPath, ListsOldPath, IsStatus, Cut, Entry.Record;
    if entries != [] {
      var entry, rest := entries[0], entries[1..];
      ReadersUndoThePrinter(rest);
      EntryIsRead(entry);
      FromIsRead(entry);
      var tail := if entry.from.None? then Print(rest) else entry.from.value + ([NUL] + Print(rest));
      CutPrinted(entry.Record(), tail);
      assert Records(entries) == [entry.Record()] + Records(rest);
      if entry.from.Some? { CutPrinted(entry.from.value, Print(rest)); }
    }
  }

  lemma FromIsRead(entry: Entry)
    requires entry.Valid()
    ensures entry.path != "" && (entry.from.Some? ==> entry.from.value != "" && NulFree(entry.from.value))
  {
  }

  // ---- Where the readers part ways ----

  // The status records of a stream, as the listing reader takes them.
  function ListedRecords(data: string): seq<string>
    decreases |data|
  {
    if data == "" then []
    else
      var (record, rest) := Cut(data);
      if !IsStatus(record) then ListedRecords(rest)
      else if !ListsOldPath(record) then [record] + ListedRecords(rest)
      else [record] + ListedRecords(Cut(rest).1)
  }

  // Unmerged on one side and renamed or copied on the other, which git does not print.
  predicate Disputed(record: string)
    requires IsStatus(record)
  {
    Either(record, 'U') && (Either(record, 'R') || Either(record, 'C'))
  }

  lemma ReadersAgreeOnRecord(record: string)
    requires IsStatus(record)
    ensures CountsOldPath(record) == ListsOldPath(record) <==> !Disputed(record)
  {
  }

  // The status records with their places: how much of the stream is left in front of each.
  function CountedPlaces(data: string, renamePath: bool): seq<(nat, string)>
    decreases |data|
  {
    if data == "" then []
    else
      var (record, rest) := Cut(data);
      if renamePath || !IsStatus(record) then CountedPlaces(rest, false)
      else [(|data|, record)] + CountedPlaces(rest, CountsOldPath(record))
  }

  function ListedPlaces(data: string): seq<(nat, string)>
    decreases |data|
  {
    if data == "" then []
    else
      var (record, rest) := Cut(data);
      if !IsStatus(record) then ListedPlaces(rest)
      else if !ListsOldPath(record) then [(|data|, record)] + ListedPlaces(rest)
      else [(|data|, record)] + ListedPlaces(Cut(rest).1)
  }

  function RecordsAt(places: seq<(nat, string)>): seq<string> {
    if places == [] then [] else [places[0].1] + RecordsAt(places[1..])
  }

  lemma {:induction false} PlacesHoldRecords(data: string, renamePath: bool)
    ensures RecordsAt(CountedPlaces(data, renamePath)) == CountedRecords(data, renamePath)
    ensures RecordsAt(ListedPlaces(data)) == ListedRecords(data)
    decreases |data|
  {
    hide CountsOldPath, ListsOldPath, IsStatus, Cut, NulFree;
    if data != "" {
      var (record, rest) := Cut(data);
      PlacesHoldRecords(rest, false);
      if IsStatus(record) {
        PlacesHoldRecords(rest, CountsOldPath(record));
        PlacesHoldRecords(Cut(rest).1, false);
      }
    }
  }

  lemma {:induction false} ListedPlacesLieInside(data: string)
    ensures forall k :: 0 <= k < |ListedPlaces(data)| ==> ListedPlaces(data)[k].0 <= |data|
    decreases |data|
  {
    hide ListsOldPath, IsStatus, Cut, NulFree;
    if data != "" {
      var (record, rest) := Cut(data);
      ListedPlacesLieInside(rest);
      ListedPlacesLieInside(Cut(rest).1);
    }
  }

  predicate StartsWithStatus(data: string) {
    data != "" && IsStatus(Cut(data).0)
  }

  // No disputed record is directly followed by another status record.
  predicate Undisputed(data: string, renamePath: bool)
    decreases |data|
  {
    data == "" ||
    var (record, rest) := Cut(data);
    if renamePath || !IsStatus(record) then Undisputed(rest, false)
    else (Disputed(record) ==> !StartsWithStatus(rest)) && Undisputed(rest, CountsOldPath(record))
  }

  // On any bytes: both readers take the same records, at the same places, exactly when no disputed record
  // is directly followed by another one.
  lemma {:induction false} ReadersAgreeExactlyWhen(data: string)
    ensures CountedPlaces(data, false) == ListedPlaces(data) <==> Undisputed(data, false)
    ensures Undisputed(data, false) ==> CountedRecords(data, false) == ListedRecords(data)
    decreases |data|
  {
    hide CountsOldPath, ListsOldPath, Disputed, IsStatus;
    PlacesHoldRecords(data, false);
    if data != "" {
      var (record, rest) := Cut(data);
      ReadersAgreeExactlyWhen(rest);
      ReadersAgreeExactlyWhen(Cut(rest).1);
      SkippedRecord(rest);
      if IsStatus(record) {
        ReadersAgreeOnRecord(record);
        if Disputed(record) {
          DisputedIsListed(record);
          ListedPlacesLieInside(Cut(rest).1);
          if StartsWithStatus(rest) { assert CountedPlaces(rest, false)[0].0 == |rest|; }
        }
        SamePlacesBehind((|data|, record), CountedPlaces(rest, CountsOldPath(record)),
                         ListedPlaces(if ListsOldPath(record) then Cut(rest).1 else rest));
      }
    }
  }

  lemma SamePlacesBehind(first: (nat, string), a: seq<(nat, string)>, b: seq<(nat, string)>)
    ensures [first] + a == [first] + b <==> a == b
  {
    assert ([first] + a)[1..] == a && ([first] + b)[1..] == b;
  }

  lemma SkippedRecord(rest: string)
    ensures CountedPlaces(rest, true) == CountedPlaces(Cut(rest).1, false)
    ensures Undisputed(rest, true) == Undisputed(Cut(rest).1, false)
    ensures !StartsWithStatus(rest) ==>
      CountedPlaces(rest, false) == CountedPlaces(Cut(rest).1, false) && Undisputed(rest, false) == Undisputed(Cut(rest).1, false)
  {
    hide CountsOldPath, Disputed, IsStatus;
  }

  // The places matter: taking different parts of the stream the readers can come upon equal records.
  lemma EqualRecordsAtOtherPlaces(first: string, second: string)
    requires NulFree(first) && NulFree(second) && IsStatus(first) && IsStatus(second)
    requires Disputed(first) && CountsOldPath(second)
    ensures var data := first + ([NUL] + (second + ([NUL] + (second + ([NUL] + "")))));
            && CountedRecords(data, false) == ListedRecords(data) == [first, second]
            && CountedPlaces(data, false) != ListedPlaces(data)
  {
    hide CountsOldPath, ListsOldPath, Disputed, IsStatus, Cut;
    var last := second + ([NUL] + "");
    var tail := second + ([NUL] + last);
    CutNothing();
    CutPrinted(second, "");
    CutPrinted(second, last);
    CutPrinted(first, tail);
    DisputedIsListed(first);
    CountedIsListed(second);
    assert last != "" && tail != "";
    var data := first + ([NUL] + tail);
    LastIsListed(last, second);
    assert CountedPlaces(last, true) == [] && ListedPlaces(last) == [(|last|, second)] + [];
    assert CountedPlaces(tail, false) == [(|tail|, second)] + [];
    assert CountedPlaces(data, false) == [(|data|, first)] + [(|tail|, second)];
    assert ListedPlaces(data) == [(|data|, first)] + [(|last|, second)];
    PlacesHoldRecords(data, false);
    TwoRecords((|data|, first), (|tail|, second));
    TwoRecords((|data|, first), (|last|, second));
    assert CountedPlaces(data, false)[1] != ListedPlaces(data)[1];
  }

  lemma LastIsListed(data: string, record: string)
    requires data != "" && Cut(data) == (record, "") && IsStatus(record)
    ensures ListedPlaces(data) == [(|data|, record)]
  {
    hide ListsOldPath, IsStatus, Cut;
    CutNothing();
    if ListsOldPath(record) { assert ListedPlaces(Cut("").1) == []; }
  }

  lemma CutNothing()
    ensures Cut("") == ("", "")
  {
  }

  lemma TwoRecords(a: (nat, string), b: (nat, string))
    ensures RecordsAt([a] + [b]) == [a.1, b.1]
  {
    assert ([a] + [b])[1..] == [b] && [b][1..] == [];
    assert RecordsAt([b]) == [b.1] + RecordsAt([]);
  }

  lemma CountedIsListed(record: string)
    requires IsStatus(record) && CountsOldPath(record)
    ensures ListsOldPath(record)
  {
  }

  // For one, after a disputed record: the next record is an entry to one and a path to the other.
  lemma ReadersDisagree(first: string, second: string)
    requires NulFree(first) && NulFree(second) && IsStatus(first) && IsStatus(second) && Disputed(first)
    ensures var data := first + ([NUL] + (second + ([NUL] + "")));
            && CountedRecords(data, false) == [first, second]
            && ListedRecords(data) == [first]
            && second in StatusPaths(data)
  {
    hide CountsOldPath, ListsOldPath, Disputed, IsStatus, Cut;
    CutPrinted(first, second + ([NUL] + ""));
    CutPrinted(second, "");
    DisputedIsListed(first);
    var data := first + ([NUL] + (second + ([NUL] + "")));
    assert second + ([NUL] + "") != "" && second != "" by { StatusIsNotEmpty(second); }
    assert CountedRecords(second + ([NUL] + ""), false) == [second] + [];
    assert CountedRecords(data, false) == [first] + [second];
    assert ListedRecords(data) == [first] + [];
  }

  lemma StatusIsNotEmpty(record: string)
    requires IsStatus(record)
    ensures record != ""
  {
  }

  lemma DisputedIsListed(record: string)
    requires IsStatus(record) && Disputed(record)
    ensures ListsOldPath(record) && !CountsOldPath(record)
  {
  }

  // ---- Overlapping paths ----

  function TrimSlash(path: string): string {
    if path != "" && path[|path| - 1] == '/' then path[..|path| - 1] else path
  }

  predicate Overlap(left: string, right: string) {
    var l, r := TrimSlash(left), TrimSlash(right);
    l == r || r + "/" <= l || l + "/" <= r
  }

  method PathsOverlap(left: set<string>, right: set<string>) returns (overlap: bool)
    ensures overlap <==> exists l, r :: l in left && r in right && Overlap(l, r)
  {
    var todo := left;
    while todo != {}
      invariant todo <= left
      invariant forall l, r :: l in left - todo && r in right ==> !Overlap(l, r)
      decreases todo
    {
      var l :| l in todo;
      var against := right;
      while against != {}
        invariant against <= right
        invariant forall r :: r in right - against ==> !Overlap(l, r)
        decreases against
      {
        var r :| r in against;
        if Overlap(l, r) { return true; }
        against := against - {r};
      }
      todo := todo - {l};
    }
    return false;
  }

  // The components of a path.
  function Split(path: string): (parts: seq<string>)
    ensures parts != []
  {
    if path == "" then [""] else Put(path[0], Split(path[1..]))
  }

  function Put(c: char, parts: seq<string>): (r: seq<string>)
    requires parts != []
    ensures r != []
  {
    if c == '/' then [""] + parts else [[c] + parts[0]] + parts[1..]
  }

  lemma PutAppend(c: char, parts: seq<string>, more: seq<string>)
    requires parts != []
    ensures Put(c, parts + more) == Put(c, parts) + more
  {
    assert (parts + more)[0] == parts[0] && (parts + more)[1..] == parts[1..] + more;
    AppendIsAssociative([""], parts, more);
    AppendIsAssociative([[c] + parts[0]], parts[1..], more);
  }

  lemma {:induction false} SplitAppend(a: string, b: string)
    ensures Split(a + ("/" + b)) == Split(a) + Split(b)
  {
    hide Put;
    var whole := a + ("/" + b);
    if a == "" {
      assert whole[0] == '/' && whole[1..] == b;
      assert Put('/', Split(b)) == [""] + Split(b) by { PutSlash(Split(b)); }
    } else {
      SplitAppend(a[1..], b);
      assert whole[0] == a[0] && whole[1..] == a[1..] + ("/" + b);
      PutAppend(a[0], Split(a[1..]), Split(b));
    }
  }

  lemma PutSlash(parts: seq<string>)
    requires parts != []
    ensures Put('/', parts) == [""] + parts
  {
  }

  // A path whose components begin with another's is that path or lies below it.
  lemma {:induction false} PrefixIsBelow(a: string, b: string)
    requires Split(a) <= Split(b)
    ensures a == b || a + "/" <= b
  {
    if b != "" && a != "" {
      var s, t := Split(a[1..]), Split(b[1..]);
      assert Split(a)[0] == Split(b)[0];
      SameFirst(a, b);
      if a[0] == '/' {
        assert Split(a)[1..] == s && Split(b)[1..] == t;
      } else {
        assert Split(a)[0][1..] == s[0] && Split(b)[0][1..] == t[0];
        assert Split(a)[1..] == s[1..] && Split(b)[1..] == t[1..];
        assert s == [s[0]] + s[1..] && t == [t[0]] + t[1..];
      }
      assert s <= t by { assert Split(a)[1..] == Split(b)[1..|Split(a)|]; }
      PrefixIsBelow(a[1..], b[1..]);
      assert a == [a[0]] + a[1..] && b == [b[0]] + b[1..];
    } else if b != "" {
      assert Split(b)[0] == "";
      assert b[0] == '/';
    } else if a != "" {
      SplitOfNonempty(a);
    }
  }

  lemma SplitOfNonempty(a: string)
    requires a != ""
    ensures !(Split(a) <= Split(""))
  {
    assert a[0] == '/' ==> |Split(a)| > 1;
    assert a[0] != '/' ==> |Split(a)[0]| > 0;
  }

  lemma SameFirst(a: string, b: string)
    requires a != "" && b != "" && Split(a)[0] == Split(b)[0]
    ensures a[0] == b[0]
  {
    assert a[0] == '/' ==> |Split(a)[0]| == 0;
    assert b[0] == '/' ==> |Split(b)[0]| == 0;
    assert a[0] != '/' ==> Split(a)[0][0] == a[0];
    assert b[0] != '/' ==> Split(b)[0][0] == b[0];
  }

  lemma BelowIsPrefix(a: string, b: string)
    requires a + "/" <= b
    ensures Split(a) <= Split(b)
  {
    var rest := b[|a| + 1..];
    assert b == a + ("/" + rest);
    SplitAppend(a, rest);
  }

  // Two paths overlap exactly when the components of one begin with those of the other: neighbours that
  // only share some letters do not.
  lemma OverlapIsByComponents(left: string, right: string)
    ensures var l, r := Split(TrimSlash(left)), Split(TrimSlash(right));
            Overlap(left, right) <==> l <= r || r <= l
  {
    hide Split, TrimSlash;
    var l, r := TrimSlash(left), TrimSlash(right);
    if r + "/" <= l { BelowIsPrefix(r, l); }
    if l + "/" <= r { BelowIsPrefix(l, r); }
    if Split(l) <= Split(r) { PrefixIsBelow(l, r); }
    if Split(r) <= Split(l) { PrefixIsBelow(r, l); }
  }
}
