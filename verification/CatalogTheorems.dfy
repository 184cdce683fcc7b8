// Merging catalog layers is last writer wins, with presence (internal/catalog/merge.go,
// internal/catalog/repository.go:65-119).
module CatalogTheorems {
  import opened Text
  import opened Sorting
  import opened Catalog

  // ---- What the last writer leaves ----

  function Last<T>(values: seq<Option<T>>): Option<T> {
    if values == [] then None
    else Override(Last(values[..|values| - 1]), values[|values| - 1])
  }

  ghost predicate IsLast<T>(values: seq<Option<T>>, i: nat) {
    i < |values| && values[i].Some? && forall j :: i < j < |values| ==> values[j].None?
  }

  // Omitted everywhere, or the value of the last layer that states it.
  lemma {:induction false} LastIsLast<T>(values: seq<Option<T>>)
    ensures Last(values).None? <==> forall i :: 0 <= i < |values| ==> values[i].None?
    ensures forall i: nat :: IsLast(values, i) ==> Last(values) == values[i]
    ensures Last(values).Some? ==> exists i: nat :: IsLast(values, i)
  {
    if values != [] {
      var rest := values[..|values| - 1];
      LastIsLast(rest);
      forall i: nat | IsLast(values, i)
        ensures Last(values) == values[i]
      {
        if i < |rest| { assert IsLast(rest, i); }
      }
      if Last(values).Some? {
        if values[|values| - 1].Some? {
          assert IsLast(values, |values| - 1);
        } else {
          var i: nat :| IsLast(rest, i);
          assert IsLast(values, i);
        }
      }
    }
  }

  function Overlay<V>(tables: seq<Option<map<string, V>>>): Option<map<string, V>> {
    if tables == [] then None
    else
      var base, top := Overlay(tables[..|tables| - 1]), tables[|tables| - 1];
      if top.Some? then Over(base, top.value) else base
  }

  ghost predicate IsLastFor<V>(tables: seq<Option<map<string, V>>>, key: string, i: nat) {
    && i < |tables| && tables[i].Some? && key in tables[i].value
    && forall j :: i < j < |tables| && tables[j].Some? ==> key !in tables[j].value
  }

  // Nil exactly when no layer states the map; a key has the value of the last layer with that key, and an
  // empty map takes no key away.
  lemma {:induction false} OverlayIsLastWriter<V>(tables: seq<Option<map<string, V>>>)
    ensures Overlay(tables).None? <==> forall i :: 0 <= i < |tables| ==> tables[i].None?
    ensures forall key, i: nat :: IsLastFor(tables, key, i) ==>
      Overlay(tables).Some? && key in Overlay(tables).value && Overlay(tables).value[key] == tables[i].value[key]
    ensures Overlay(tables).Some? ==>
      forall key :: key in Overlay(tables).value ==> exists i: nat :: IsLastFor(tables, key, i)
  {
    if tables != [] {
      var rest, top := tables[..|tables| - 1], tables[|tables| - 1];
      OverlayIsLastWriter(rest);
      var all := Overlay(tables);
      forall key, i: nat | IsLastFor(tables, key, i)
        ensures all.Some? && key in all.value && all.value[key] == tables[i].value[key]
      {
        if i < |rest| { assert IsLastFor(rest, key, i); }
      }
      if all.Some? {
        forall key | key in all.value
          ensures exists i: nat :: IsLastFor(tables, key, i)
        {
          if top.Some? && key in top.value {
            assert IsLastFor(tables, key, |tables| - 1);
          } else {
            var i: nat :| IsLastFor(rest, key, i);
            assert IsLastFor(tables, key, i);
          }
        }
      }
    }
  }

  // ---- The fields of the layers ----

  function Column<T>(documents: seq<Document>, field: Document -> T): (values: seq<T>)
    ensures |values| == |documents|
    ensures forall i :: 0 <= i < |documents| ==> values[i] == field(documents[i])
  {
    if documents == [] then []
    else Column(documents[..|documents| - 1], field) + [field(documents[|documents| - 1])]
  }

  function Stated<D, V>(source: Option<Table<D>>, convert: Conversion<D, V>): Option<map<string, V>> {
    if source.None? || source.value.Nil? then None else Some(Accepted(source.value.entries, convert))
  }

  function Npm(d: Document): Option<map<string, string>> {
    if d.pins.None? then None else Stated(d.pins.value.npm, ConvertString)
  }

  function Pacman(d: Document): Option<map<string, PacmanPin>> {
    if d.pins.None? then None else Stated(d.pins.value.pacman, ConvertPacman)
  }

  function Aur(d: Document): Option<map<string, AurPin>> {
    if d.pins.None? then None else Stated(d.pins.value.aur, ConvertAur)
  }

  function Remote(d: Document): Option<map<string, RemotePin>> {
    if d.pins.None? then None else Stated(d.pins.value.remote, ConvertRemote)
  }

  function Local(d: Document): Option<map<string, string>> {
    if d.pins.None? then None else Stated(d.pins.value.local, ConvertString)
  }

  function Checkouts(d: Document): Option<map<string, CheckoutPin>> {
    Stated(d.checkouts, ConvertCheckout)
  }

  function Roles(d: Document): Option<seq<string>> { d.roles }

  function Risk(d: Document): Option<RiskPolicy> { d.risk }

  function Modules(d: Document): Option<map<string, bool>> { d.modules }

  function Templates(d: Document): Option<seq<string>> { d.templates }

  function Overlays(d: Document): Option<seq<string>> { d.overlays }

  ghost predicate StatesPins(documents: seq<Document>) {
    exists i :: 0 <= i < |documents| && documents[i].pins.Some?
  }

  ghost function PinsOverlay(documents: seq<Document>): Option<Pins> {
    if !StatesPins(documents) then None
    else
      Some(Pins(Overlay(Column(documents, Npm)), Overlay(Column(documents, Pacman)), Overlay(Column(documents, Aur)),
                Overlay(Column(documents, Remote)), Overlay(Column(documents, Local))))
  }

  function Version(d: Document): Option<int> { d.version }

  function Kind(d: Document): Option<string> { d.kind }

  // Version, kind and every list field are the last stated ones, every map is the overlay of the stated
  // ones, layer by layer; a version or kind that no layer states is 0 or empty.
  ghost predicate IsLastWriterWins(merged: Catalog, documents: seq<Document>) {
    && Some(merged.version) == Override(Some(0), Last(Column(documents, Version)))
    && Some(merged.kind) == Override(Some(""), Last(Column(documents, Kind)))
    && merged.roles == Last(Column(documents, Roles))
    && merged.risk == Last(Column(documents, Risk))
    && merged.templates == Last(Column(documents, Templates))
    && merged.overlays == Last(Column(documents, Overlays))
    && merged.modules == Overlay(Column(documents, Modules))
    && merged.checkouts == Overlay(Column(documents, Checkouts))
    && merged.pins == PinsOverlay(documents)
  }

  lemma LastColumn<T>(documents: seq<Document>, field: Document -> Option<T>)
    requires documents != []
    ensures Last(Column(documents, field))
         == Override(Last(Column(documents[..|documents| - 1], field)), field(documents[|documents| - 1]))
  {
    var values := Column(documents, field);
    assert values[..|values| - 1] == Column(documents[..|documents| - 1], field);
  }

  lemma OverlayColumn<V>(documents: seq<Document>, field: Document -> Option<map<string, V>>)
    requires documents != []
    ensures var base, top := Overlay(Column(documents[..|documents| - 1], field)), field(documents[|documents| - 1]);
            Overlay(Column(documents, field)) == if top.Some? then Over(base, top.value) else base
  {
    var tables := Column(documents, field);
    assert tables[..|tables| - 1] == Column(documents[..|documents| - 1], field);
  }

  lemma TableIsOverlay<D, V>(destination: Option<map<string, V>>, source: Option<Table<D>>, convert: Conversion<D, V>)
    ensures MergedTable(destination, source, convert) ==
      if Stated(source, convert).Some? then Over(destination, Stated(source, convert).value) else destination
  {
  }

  lemma {:induction false} NoPinsNoTables(documents: seq<Document>)
    requires !StatesPins(documents)
    ensures Overlay(Column(documents, Npm)) == None && Overlay(Column(documents, Pacman)) == None
    ensures Overlay(Column(documents, Aur)) == None && Overlay(Column(documents, Remote)) == None
    ensures Overlay(Column(documents, Local)) == None
  {
    OverlayIsLastWriter(Column(documents, Npm));
    OverlayIsLastWriter(Column(documents, Pacman));
    OverlayIsLastWriter(Column(documents, Aur));
    OverlayIsLastWriter(Column(documents, Remote));
    OverlayIsLastWriter(Column(documents, Local));
  }

  lemma PinsStep(documents: seq<Document>, pins: Option<Pins>)
    requires documents != [] && pins == PinsOverlay(documents[..|documents| - 1])
    ensures var last := documents[|documents| - 1];
            PinsOverlay(documents) == if last.pins.Some? then Some(MergedPins(pins, last.pins.value)) else pins
  {
    hide Overlay, Over, MergedTable, Stated;
    var rest, last := documents[..|documents| - 1], documents[|documents| - 1];
    if !StatesPins(rest) { NoPinsNoTables(rest); }
    assert StatesPins(documents) <==> StatesPins(rest) || last.pins.Some? by {
      if StatesPins(rest) {
        var i :| 0 <= i < |rest| && rest[i].pins.Some?;
        assert documents[i].pins.Some?;
      }
      assert last.pins.Some? ==> documents[|documents| - 1].pins.Some?;
    }
    OverlayColumn(documents, Npm);
    OverlayColumn(documents, Pacman);
    OverlayColumn(documents, Aur);
    OverlayColumn(documents, Remote);
    OverlayColumn(documents, Local);
    if last.pins.Some? {
      var base := if pins.Some? then pins.value else NO_PINS;
      TableIsOverlay(base.npm, last.pins.value.npm, ConvertString);
      TableIsOverlay(base.pacman, last.pins.value.pacman, ConvertPacman);
      TableIsOverlay(base.aur, last.pins.value.aur, ConvertAur);
      TableIsOverlay(base.remote, last.pins.value.remote, ConvertRemote);
      TableIsOverlay(base.local, last.pins.value.local, ConvertString);
    }
  }

  lemma {:induction false} MergeIsLastWriterWins(documents: seq<Document>)
    ensures IsLastWriterWins(Merged(documents), documents)
  {
    hide Last, Overlay, Over, MergedTable, Stated, MergedPins, PinsOverlay;
    if documents == [] {
      NothingMerged();
    } else {
      var rest, last := documents[..|documents| - 1], documents[|documents| - 1];
      MergeIsLastWriterWins(rest);
      LastColumn(documents, Version);
      LastColumn(documents, Kind);
      LastColumn(documents, Roles);
      LastColumn(documents, Risk);
      LastColumn(documents, Templates);
      LastColumn(documents, Overlays);
      OverlayColumn(documents, Modules);
      OverlayColumn(documents, Checkouts);
      TableIsOverlay(Merged(rest).checkouts, last.checkouts, ConvertCheckout);
      PinsStep(documents, Merged(rest).pins);
    }
  }

  lemma NothingMerged()
    ensures IsLastWriterWins(EMPTY, [])
  {
  }

  // Where a merge succeeds every stated entry is complete and counts: no key is dropped on the way.
  lemma {:induction false} NothingIsDropped<D, V>(names: seq<string>, entries: map<string, D>, convert: Conversion<D, V>)
    requires forall name :: name in names ==> name in entries
    requires EntryIssues(names, entries, convert) == []
    requires forall name, value :: convert(name, value).Faulty? ==> convert(name, value).issues != []
    ensures forall name :: name in names ==> convert(name, entries[name]).Complete?
  {
    if names != [] {
      var rest, last := names[..|names| - 1], names[|names| - 1];
      NothingIsDropped(rest, entries, convert);
      assert names == rest + [last];
    }
  }

  lemma StatedKeepsEveryKey<D, V>(source: Option<Table<D>>, nothing: Issue, convert: Conversion<D, V>)
    requires TableIssues(source, nothing, convert) == []
    requires forall name, value :: convert(name, value).Faulty? ==> convert(name, value).issues != []
    ensures source.None? <==> Stated(source, convert).None?
    ensures source.Some? ==> source.value.Entries? && Stated(source, convert).value.Keys == source.value.entries.Keys
  {
    if source.Some? {
      var entries := source.value.entries;
      var names := InOrder(PLAIN, entries.Keys);
      InOrderIsSorted(PLAIN, entries.Keys);
      assert forall name :: name in names <==> name in Elements(names);
      NothingIsDropped(names, entries, convert);
    }
  }

  lemma FaultsAreReported()
    ensures forall name, pin :: ConvertPacman(name, pin).Faulty? ==> ConvertPacman(name, pin).issues != []
    ensures forall name, pin :: ConvertAur(name, pin).Faulty? ==> ConvertAur(name, pin).issues != []
    ensures forall name, pin :: ConvertRemote(name, pin).Faulty? ==> ConvertRemote(name, pin).issues != []
    ensures forall name, pin :: ConvertCheckout(name, pin).Faulty? ==> ConvertCheckout(name, pin).issues != []
  {
    hide Child;
  }

  // In a layer that is not at fault the version is 1, and each pin the layer states is kept.
  lemma SoundLayerIsComplete(document: Document)
    requires DocumentIssues(document) == []
    ensures document.version == Some(1) && document.kind.Some? && document.kind.value in [GLOBAL, ROLE, HOST]
    ensures document.checkouts.Some? ==>
      document.checkouts.value.Entries? && Checkouts(document).value.Keys == document.checkouts.value.entries.Keys
    ensures document.pins.Some? && document.pins.value.pacman.Some? ==>
      document.pins.value.pacman.value.Entries? && Pacman(document).value.Keys == document.pins.value.pacman.value.entries.Keys
    ensures document.pins.Some? && document.pins.value.aur.Some? ==>
      document.pins.value.aur.value.Entries? && Aur(document).value.Keys == document.pins.value.aur.value.entries.Keys
    ensures document.pins.Some? && document.pins.value.remote.Some? ==>
      document.pins.value.remote.value.Entries? && Remote(document).value.Keys == document.pins.value.remote.value.entries.Keys
  {
    hide TableIssues, Stated, ConvertPacman, ConvertAur, ConvertRemote, ConvertCheckout;
    FaultsAreReported();
    StatedKeepsEveryKey(document.checkouts, NIL_CHECKOUTS, ConvertCheckout);
    if document.pins.Some? {
      var pins := document.pins.value;
      StatedKeepsEveryKey(pins.pacman, Issue("/pins/pacmanArtifacts", NIL_PINS), ConvertPacman);
      StatedKeepsEveryKey(pins.aur, Issue("/pins/aurLocal", NIL_PINS), ConvertAur);
      StatedKeepsEveryKey(pins.remote, Issue("/pins/remoteArtifacts", NIL_PINS), ConvertRemote);
    }
  }

  // A merge is refused exactly when one of its layers, by itself, is at fault.
  lemma {:induction false} MergeFailsExactlyWhen(documents: seq<Document>)
    ensures AllIssues(documents) == [] <==> forall i :: 0 <= i < |documents| ==> DocumentIssues(documents[i]) == []
  {
    hide DocumentIssues;
    if documents != [] {
      var rest, last := documents[..|documents| - 1], documents[|documents| - 1];
      MergeFailsExactlyWhen(rest);
      assert forall i :: 0 <= i < |rest| ==> documents[i] == rest[i];
      if AllIssues(documents) == [] { assert |AllIssues(rest)| + |DocumentIssues(last)| == 0; }
    }
  }

  lemma IssueOrder()
    ensures WeakOrder(IssueLess)
  {
    forall a: Issue, b: Issue, c: Issue
      ensures !IssueLess(a, a) && (IssueLess(a, b) && !IssueLess(c, b) ==> !IssueLess(c, a))
    {
      TextOrder(a.path, b.path, c.path);
      TextOrder(c.path, b.path, a.path);
      TextOrder(b.path, c.path, a.path);
      TextOrder(a.message, b.message, c.message);
    }
  }

  // The order the layers and entries were read in does not show in the reported issues.
  lemma IssuesAreCanonical(a: seq<Issue>, b: seq<Issue>)
    requires multiset(a) == multiset(b)
    ensures SortIssues(a) == SortIssues(b)
    ensures multiset(SortIssues(a)) == multiset(a)
  {
    hide WeakOrder, InOrderBy, SortBy;
    IssueOrder();
    SortBySorts(IssueLess, a);
    forall x, y | x in a && y in a && !IssueLess(x, y) && !IssueLess(y, x)
      ensures x == y
    {
      TextOrder(x.path, y.path, x.path);
      TextOrder(x.message, y.message, x.message);
    }
    SortIgnoresOrder(IssueLess, a, b);
  }

  // ---- Resolving ----

  // Roles are taken in the order the host declares them, each once and each a sound role layer.
  lemma {:induction false} RoleLayersFollowTheHost(repository: Repository, roles: seq<string>)
    ensures RoleLayers(repository, roles).Ok? <==>
      && NoDuplicates(roles)
      && forall i :: 0 <= i < |roles| ==>
           roles[i] in repository.roles && LayerFault(repository.roles[roles[i]], ROLE).None?
    ensures RoleLayers(repository, roles).Ok? ==>
      && |RoleLayers(repository, roles).value| == |roles|
      && forall i :: 0 <= i < |roles| ==>
           roles[i] in repository.roles && RoleLayers(repository, roles).value[i] == repository.roles[roles[i]]
  {
    hide LayerFault;
    if roles != [] {
      var rest, last := roles[..|roles| - 1], roles[|roles| - 1];
      RoleLayersFollowTheHost(repository, rest);
      assert forall i :: 0 <= i < |rest| ==> roles[i] == rest[i];
      assert last in rest <==> exists i :: 0 <= i < |rest| && roles[i] == last;
    }
  }

  // A resolved policy is global, then the roles in declared order, then the host; what the host states
  // wins, and roles and risk authority are the host's own, whatever the other layers hold.
  lemma HostHasTheLastWord(repository: Repository, valid: Catalog -> bool, name: string)
    requires Resolved(repository, valid, name).Ok?
    ensures name in repository.hosts && RoleLayers(repository, RolesOf(repository.hosts[name])).Ok?
    ensures var host := repository.hosts[name];
            var policy := Resolved(repository, valid, name).value;
            var documents := [repository.global] + RoleLayers(repository, RolesOf(host)).value + [host];
            && policy.desired == Merged(documents)
            && IsLastWriterWins(policy.desired, documents)
            && policy.desired.roles == host.roles
            && policy.desired.risk == host.risk
            && policy.risks == (if host.risk.Some? then host.risk.value else DENIED)
            && (host.templates.Some? ==> policy.desired.templates == host.templates)
            && (host.modules.Some? ==>
                  policy.desired.modules.Some? &&
                  forall key :: key in host.modules.value ==>
                    key in policy.desired.modules.value && policy.desired.modules.value[key] == host.modules.value[key])
  {
    hide LayerFault, RoleLayers, AllIssues, MergedPins, MergedTable, IsLastWriterWins, Last, Overlay;
    var host := repository.hosts[name];
    var layers := RoleLayers(repository, RolesOf(host)).value;
    var documents := [repository.global] + layers + [host];
    MergeIsLastWriterWins(documents);
    LowerLayersAreSilent(repository, RolesOf(host));
    SilentLayersLeaveNothing([repository.global] + layers);
    assert documents[..|documents| - 1] == [repository.global] + layers;
  }

  lemma LowerLayersAreSilent(repository: Repository, roles: seq<string>)
    requires LayerFault(repository.global, GLOBAL).None? && RoleLayers(repository, roles).Ok?
    ensures var lower := [repository.global] + RoleLayers(repository, roles).value;
            forall i :: 0 <= i < |lower| ==> lower[i].roles.None? && lower[i].risk.None?
  {
    RoleLayersFollowTheHost(repository, roles);
  }

  lemma {:induction false} SilentLayersLeaveNothing(documents: seq<Document>)
    requires forall i :: 0 <= i < |documents| ==> documents[i].roles.None? && documents[i].risk.None?
    ensures Merged(documents).roles.None? && Merged(documents).risk.None?
  {
    hide MergedPins, MergedTable;
    if documents != [] { SilentLayersLeaveNothing(documents[..|documents| - 1]); }
  }
}
