// Which pin a merged catalog holds under a name, in the terms of the documents that were merged
// (internal/catalog/merge.go:87-264).
module CatalogPins {
  import opened Text
  import opened Catalog
  import opened CatalogTheorems

  ghost predicate Mentions<D>(source: Option<Table<D>>, name: string) {
    source.Some? && source.value.Entries? && name in source.value.entries
  }

  function PacmanOf(d: Document): Option<Table<PacmanDocument>> { if d.pins.Some? then d.pins.value.pacman else None }

  function AurOf(d: Document): Option<Table<AurDocument>> { if d.pins.Some? then d.pins.value.aur else None }

  function RemoteOf(d: Document): Option<Table<RemoteDocument>> { if d.pins.Some? then d.pins.value.remote else None }

  function NpmOf(d: Document): Option<Table<string>> { if d.pins.Some? then d.pins.value.npm else None }

  function LocalOf(d: Document): Option<Table<string>> { if d.pins.Some? then d.pins.value.local else None }

  function CheckoutsOf(d: Document): Option<Table<CheckoutDocument>> { d.checkouts }

  // ---- What a complete entry says ----

  ghost predicate SaysPacman(entry: PacmanDocument, pin: PacmanPin) {
    && entry.package == Some(pin.package) && entry.version == Some(pin.version)
    && entry.source == Some(pin.source) && entry.sha256 == Some(pin.sha256)
  }

  ghost predicate SaysAur(entry: AurDocument, pin: AurPin) {
    entry.sourceCommit == Some(pin.sourceCommit) && entry.patchSha256 == Some(pin.patchSha256)
  }

  ghost predicate SaysRemote(entry: RemoteDocument, pin: RemotePin) {
    entry.url == Some(pin.url) && entry.sha256 == Some(pin.sha256)
  }

  ghost predicate SaysCheckout(entry: CheckoutDocument, pin: CheckoutPin) {
    && entry.remote == Some(pin.remote) && entry.branch == Some(pin.branch) && entry.commit == Some(pin.commit)
    && pin.remote != "" && pin.branch != "" && pin.commit != ""
  }

  ghost predicate SaysString(entry: string, pin: string) {
    entry == pin
  }

  // An entry becomes the pin it says, or none.
  ghost predicate Reads<D(!new), V(!new)>(convert: Conversion<D, V>, says: (D, V) -> bool) {
    forall name, entry, pin :: convert(name, entry) == Complete(pin) <==> says(entry, pin)
  }

  lemma ConversionsRead()
    ensures Reads(ConvertPacman, SaysPacman)
    ensures Reads(ConvertAur, SaysAur)
    ensures Reads(ConvertRemote, SaysRemote)
    ensures Reads(ConvertCheckout, SaysCheckout)
    ensures Reads(ConvertString, SaysString)
  {
  }

  // ---- The last document that has the name ----

  ghost predicate IsLastToSay<D, V>(documents: seq<Document>, source: Document -> Option<Table<D>>, says: (D, V) -> bool,
                                    name: string, pin: V, i: nat) {
    && i < |documents| && Mentions(source(documents[i]), name) && says(source(documents[i]).value.entries[name], pin)
    && forall j :: i < j < |documents| ==> !Mentions(source(documents[j]), name)
  }

  ghost predicate Holds<V>(table: Option<map<string, V>>, name: string, pin: V) {
    table.Some? && name in table.value && table.value[name] == pin
  }

  // Where every entry of every document is complete.
  lemma {:induction false} LastSaidIsHeld<D(!new), V(!new)>(documents: seq<Document>, source: Document -> Option<Table<D>>,
      convert: Conversion<D, V>, says: (D, V) -> bool, stated: Document -> Option<map<string, V>>, name: string, pin: V)
    requires forall d :: stated(d) == Stated(source(d), convert)
    requires Reads(convert, says)
    requires forall i :: 0 <= i < |documents| ==> Whole(source(documents[i]), convert)
    ensures Holds(Overlay(Column(documents, stated)), name, pin) <==>
      exists i: nat :: IsLastToSay(documents, source, says, name, pin, i)
  {
    var tables := Column(documents, stated);
    OverlayIsLastWriter(tables);
    forall i | 0 <= i < |documents|
      ensures (tables[i].Some? && name in tables[i].value) <==> Mentions(source(documents[i]), name)
      ensures Mentions(source(documents[i]), name) ==>
        (tables[i].value[name] == pin <==> says(source(documents[i]).value.entries[name], pin))
    {
      StatedIsSaid(source(documents[i]), convert, says, name, pin);
    }
    if Holds(Overlay(tables), name, pin) {
      var i: nat :| IsLastFor(tables, name, i);
      assert IsLastToSay(documents, source, says, name, pin, i);
    }
    if i: nat :| IsLastToSay(documents, source, says, name, pin, i) {
      assert IsLastFor(tables, name, i);
    }
  }

  ghost predicate Whole<D, V>(source: Option<Table<D>>, convert: Conversion<D, V>) {
    source.Some? && source.value.Entries? ==>
      forall name :: name in source.value.entries ==> convert(name, source.value.entries[name]).Complete?
  }

  lemma StatedIsSaid<D(!new), V(!new)>(source: Option<Table<D>>, convert: Conversion<D, V>, says: (D, V) -> bool, name: string, pin: V)
    requires Whole(source, convert) && Reads(convert, says)
    ensures (Stated(source, convert).Some? && name in Stated(source, convert).value) <==> Mentions(source, name)
    ensures Mentions(source, name) ==> (Stated(source, convert).value[name] == pin <==> says(source.value.entries[name], pin))
  {
    if Mentions(source, name) {
      var entry := source.value.entries[name];
      assert convert(name, entry).Complete?;
      assert convert(name, entry) == Complete(pin) <==> says(entry, pin);
    }
  }

  // ---- Merged documents ----

  ghost predicate AllWhole(documents: seq<Document>) {
    forall i :: 0 <= i < |documents| ==>
      && Whole(PacmanOf(documents[i]), ConvertPacman) && Whole(AurOf(documents[i]), ConvertAur)
      && Whole(RemoteOf(documents[i]), ConvertRemote) && Whole(CheckoutsOf(documents[i]), ConvertCheckout)
  }

  lemma SoundDocumentsAreWhole(documents: seq<Document>)
    requires AllIssues(documents) == []
    ensures AllWhole(documents)
  {
    hide DocumentIssues, Whole;
    MergeFailsExactlyWhen(documents);
    forall i | 0 <= i < |documents|
      ensures Whole(PacmanOf(documents[i]), ConvertPacman) && Whole(AurOf(documents[i]), ConvertAur)
      ensures Whole(RemoteOf(documents[i]), ConvertRemote) && Whole(CheckoutsOf(documents[i]), ConvertCheckout)
    {
      SoundDocumentIsWhole(documents[i]);
    }
  }

  lemma SoundDocumentIsWhole(d: Document)
    requires DocumentIssues(d) == []
    ensures Whole(PacmanOf(d), ConvertPacman) && Whole(AurOf(d), ConvertAur)
    ensures Whole(RemoteOf(d), ConvertRemote) && Whole(CheckoutsOf(d), ConvertCheckout)
  {
    hide TableIssues, ConvertPacman, ConvertAur, ConvertRemote, ConvertCheckout, Whole;
    FaultsAreReported();
    TableIsWhole(d.checkouts, NIL_CHECKOUTS, ConvertCheckout);
    if d.pins.Some? {
      var pins := d.pins.value;
      TableIsWhole(pins.pacman, Issue("/pins/pacmanArtifacts", NIL_PINS), ConvertPacman);
      TableIsWhole(pins.aur, Issue("/pins/aurLocal", NIL_PINS), ConvertAur);
      TableIsWhole(pins.remote, Issue("/pins/remoteArtifacts", NIL_PINS), ConvertRemote);
    } else {
      NothingIsWhole(ConvertPacman);
      NothingIsWhole(ConvertAur);
      NothingIsWhole(ConvertRemote);
    }
  }

  lemma NothingIsWhole<D, V>(convert: Conversion<D, V>)
    ensures Whole(None, convert)
  {
  }

  lemma TableIsWhole<D, V>(source: Option<Table<D>>, nothing: Issue, convert: Conversion<D, V>)
    requires forall name, value :: convert(name, value).Faulty? ==> convert(name, value).issues != []
    ensures TableIssues(source, nothing, convert) == [] ==> Whole(source, convert)
  {
    if TableIssues(source, nothing, convert) == [] && source.Some? {
      StatedKeepsEveryKey(source, nothing, convert);
      forall name | name in source.value.entries
        ensures convert(name, source.value.entries[name]).Complete?
      {
        assert name in Stated(source, convert).value.Keys;
      }
    }
  }

  // A pin of the merged catalog is, field by field, what the last document with its name states there.
  lemma MergedPinsAreLastStated(documents: seq<Document>, name: string, pacman: PacmanPin, aur: AurPin, remote: RemotePin,
                                checkout: CheckoutPin, text: string)
    requires AllIssues(documents) == []
    ensures var merged := Merged(documents); var pins := if merged.pins.Some? then merged.pins.value else NO_PINS;
      && (Holds(pins.pacman, name, pacman) <==>
            exists i: nat :: IsLastToSay(documents, PacmanOf, SaysPacman, name, pacman, i))
      && (Holds(pins.aur, name, aur) <==> exists i: nat :: IsLastToSay(documents, AurOf, SaysAur, name, aur, i))
      && (Holds(pins.remote, name, remote) <==>
            exists i: nat :: IsLastToSay(documents, RemoteOf, SaysRemote, name, remote, i))
      && (Holds(merged.checkouts, name, checkout) <==>
            exists i: nat :: IsLastToSay(documents, CheckoutsOf, SaysCheckout, name, checkout, i))
      && (Holds(pins.npm, name, text) <==> exists i: nat :: IsLastToSay(documents, NpmOf, SaysString, name, text, i))
      && (Holds(pins.local, name, text) <==> exists i: nat :: IsLastToSay(documents, LocalOf, SaysString, name, text, i))
  {
    hide Merged, AllIssues, Stated, Overlay, Column, Whole, Reads, Holds, IsLastToSay, ConvertPacman, ConvertAur, ConvertRemote,
      ConvertCheckout, ConvertString;
    MergeIsLastWriterWins(documents);
    SoundDocumentsAreWhole(documents);
    ConversionsRead();
    ColumnsAreStated();
    if !StatesPins(documents) { NoPinsNoTables(documents); }
    LastSaidIsHeld(documents, PacmanOf, ConvertPacman, SaysPacman, Pacman, name, pacman);
    LastSaidIsHeld(documents, AurOf, ConvertAur, SaysAur, Aur, name, aur);
    LastSaidIsHeld(documents, RemoteOf, ConvertRemote, SaysRemote, Remote, name, remote);
    LastSaidIsHeld(documents, CheckoutsOf, ConvertCheckout, SaysCheckout, Checkouts, name, checkout);
    StringsAreWhole(documents);
    LastSaidIsHeld(documents, NpmOf, ConvertString, SaysString, Npm, name, text);
    LastSaidIsHeld(documents, LocalOf, ConvertString, SaysString, Local, name, text);
  }

  lemma ColumnsAreStated()
    ensures forall d :: Pacman(d) == Stated(PacmanOf(d), ConvertPacman)
    ensures forall d :: Aur(d) == Stated(AurOf(d), ConvertAur)
    ensures forall d :: Remote(d) == Stated(RemoteOf(d), ConvertRemote)
    ensures forall d :: Checkouts(d) == Stated(CheckoutsOf(d), ConvertCheckout)
    ensures forall d :: Npm(d) == Stated(NpmOf(d), ConvertString)
    ensures forall d :: Local(d) == Stated(LocalOf(d), ConvertString)
  {
    hide Accepted, ConvertPacman, ConvertAur, ConvertRemote, ConvertCheckout, ConvertString;
  }

  lemma StringsAreWhole(documents: seq<Document>)
    ensures forall i :: 0 <= i < |documents| ==> Whole(NpmOf(documents[i]), ConvertString) && Whole(LocalOf(documents[i]), ConvertString)
  {
  }

  // ---- Which documents and hosts are accepted ----

  ghost predicate NotNil<D>(source: Option<Table<D>>) {
    source.Some? ==> source.value.Entries?
  }

  ghost predicate EveryEntry<D(!new)>(source: Option<Table<D>>, good: D -> bool) {
    NotNil(source) && forall name :: Mentions(source, name) ==> good(source.value.entries[name])
  }

  predicate PacmanIsComplete(e: PacmanDocument) {
    e.package.Some? && e.version.Some? && e.source.Some? && e.sha256.Some?
  }

  predicate AurIsComplete(e: AurDocument) {
    e.sourceCommit.Some? && e.patchSha256.Some?
  }

  predicate RemoteIsComplete(e: RemoteDocument) {
    e.url.Some? && e.sha256.Some?
  }

  predicate CheckoutIsComplete(e: CheckoutDocument) {
    && e.remote.Some? && e.remote.value != "" && e.branch.Some? && e.branch.value != ""
    && e.commit.Some? && e.commit.value != ""
  }

  // Version 1, a known kind, no nil map, and no entry with a field missing; checkout fields not empty either.
  ghost predicate IsSound(d: Document) {
    && d.version == Some(1) && d.kind.Some? && d.kind.value in ["Global", "Role", "Host"]
    && NotNil(NpmOf(d)) && NotNil(LocalOf(d))
    && EveryEntry(PacmanOf(d), PacmanIsComplete) && EveryEntry(AurOf(d), AurIsComplete)
    && EveryEntry(RemoteOf(d), RemoteIsComplete) && EveryEntry(CheckoutsOf(d), CheckoutIsComplete)
  }

  lemma CompleteIsConverted()
    ensures forall name, e :: ConvertPacman(name, e).Complete? <==> PacmanIsComplete(e)
    ensures forall name, e :: ConvertAur(name, e).Complete? <==> AurIsComplete(e)
    ensures forall name, e :: ConvertRemote(name, e).Complete? <==> RemoteIsComplete(e)
    ensures forall name, e :: ConvertCheckout(name, e).Complete? <==> CheckoutIsComplete(e)
    ensures forall name, e :: ConvertString(name, e).Complete?
  {
  }

  lemma {:induction false} NoEntryIssues<D, V>(names: seq<string>, entries: map<string, D>, convert: Conversion<D, V>)
    requires forall name :: name in names ==> name in entries && convert(name, entries[name]).Complete?
    ensures EntryIssues(names, entries, convert) == []
  {
    if names != [] {
      assert names[|names| - 1] in names;
      NoEntryIssues(names[..|names| - 1], entries, convert);
    }
  }

  lemma TableIsQuietExactlyWhen<D(!new), V>(source: Option<Table<D>>, nothing: Issue, convert: Conversion<D, V>, good: D -> bool)
    requires forall name, value :: convert(name, value).Faulty? ==> convert(name, value).issues != []
    requires forall name, value :: convert(name, value).Complete? <==> good(value)
    ensures TableIssues(source, nothing, convert) == [] <==> EveryEntry(source, good)
  {
    if TableIssues(source, nothing, convert) == [] {
      TableIsWhole(source, nothing, convert);
      if source.Some? { StatedKeepsEveryKey(source, nothing, convert); }
    }
    if EveryEntry(source, good) && source.Some? {
      var names := InOrder(PLAIN, source.value.entries.Keys);
      InOrderIsSorted(PLAIN, source.value.entries.Keys);
      forall name | name in names
        ensures name in source.value.entries && convert(name, source.value.entries[name]).Complete?
      {
        assert name in Elements(names);
        assert Mentions(source, name);
      }
      NoEntryIssues(names, source.value.entries, convert);
    }
  }

  lemma StringTableIsQuiet(source: Option<Table<string>>, nothing: Issue)
    ensures TableIssues(source, nothing, ConvertString) == [] <==> NotNil(source)
  {
    TableIsQuietExactlyWhen(source, nothing, ConvertString, (e: string) => true);
  }

  // A document gives no issue exactly when it is sound.
  lemma DocumentIsSoundExactlyWhen(d: Document)
    ensures DocumentIssues(d) == [] <==> IsSound(d)
  {
    hide TableIssues, EveryEntry, NotNil, ConvertPacman, ConvertAur, ConvertRemote, ConvertCheckout, ConvertString,
      PacmanIsComplete, AurIsComplete, RemoteIsComplete, CheckoutIsComplete;
    FaultsAreReported();
    CompleteIsConverted();
    NilIsQuiet();
    TableIsQuietExactlyWhen(d.checkouts, NIL_CHECKOUTS, ConvertCheckout, CheckoutIsComplete);
    if d.pins.Some? { PinsAreQuietExactlyWhen(d.pins.value); }
    assert |DocumentIssues(d)| == |VersionIssues(d.version)| + |KindIssues(d.kind)|
      + |TableIssues(d.checkouts, NIL_CHECKOUTS, ConvertCheckout)| + (if d.pins.Some? then |PinsIssues(d.pins.value)| else 0);
  }

  lemma NilIsQuiet()
    ensures NotNil<string>(None)
    ensures EveryEntry(None, PacmanIsComplete) && EveryEntry(None, AurIsComplete) && EveryEntry(None, RemoteIsComplete)
  {
  }

  lemma PinsAreQuietExactlyWhen(pins: PinsDocument)
    ensures PinsIssues(pins) == [] <==>
      && NotNil(pins.npm) && NotNil(pins.local)
      && EveryEntry(pins.pacman, PacmanIsComplete) && EveryEntry(pins.aur, AurIsComplete)
      && EveryEntry(pins.remote, RemoteIsComplete)
  {
    hide TableIssues, EveryEntry, NotNil, ConvertPacman, ConvertAur, ConvertRemote, ConvertString, PacmanIsComplete, AurIsComplete,
      RemoteIsComplete;
    FaultsAreReported();
    CompleteIsConverted();
    StringTableIsQuiet(pins.npm, Issue("/pins/npm", NIL_PINS));
    StringTableIsQuiet(pins.local, Issue("/pins/localPathPackages", NIL_PINS));
    TableIsQuietExactlyWhen(pins.pacman, Issue("/pins/pacmanArtifacts", NIL_PINS), ConvertPacman, PacmanIsComplete);
    TableIsQuietExactlyWhen(pins.aur, Issue("/pins/aurLocal", NIL_PINS), ConvertAur, AurIsComplete);
    TableIsQuietExactlyWhen(pins.remote, Issue("/pins/remoteArtifacts", NIL_PINS), ConvertRemote, RemoteIsComplete);
    PinsIssuesAddUp(pins);
  }

  lemma PinsIssuesAddUp(pins: PinsDocument)
    ensures |PinsIssues(pins)| ==
      |TableIssues(pins.npm, Issue("/pins/npm", NIL_PINS), ConvertString)|
      + |TableIssues(pins.local, Issue("/pins/localPathPackages", NIL_PINS), ConvertString)|
      + |TableIssues(pins.pacman, Issue("/pins/pacmanArtifacts", NIL_PINS), ConvertPacman)|
      + |TableIssues(pins.aur, Issue("/pins/aurLocal", NIL_PINS), ConvertAur)|
      + |TableIssues(pins.remote, Issue("/pins/remoteArtifacts", NIL_PINS), ConvertRemote)|
  {
    hide TableIssues;
  }

  // A layer below the host: of its kind, and without roles or risk authority of its own.
  ghost predicate IsLower(d: Document, kind: string) {
    IsSound(d) && d.kind == Some(kind) && d.roles.None? && d.risk.None?
  }

  // A host resolves exactly when it is there, it and the layers it names are sound, of their kinds and in
  // their bounds, its roles are named once each, and the merged catalog is supported.
  lemma ResolvesExactlyWhen(repository: Repository, valid: Catalog -> bool, name: string)
    ensures Resolved(repository, valid, name).Ok? <==>
      && name in repository.hosts
      && var host := repository.hosts[name];
         var roles := if host.roles.Some? then host.roles.value else [];
         && IsLower(repository.global, "Global")
         && IsSound(host) && host.kind == Some("Host")
         && NoDuplicates(roles)
         && (forall i :: 0 <= i < |roles| ==> roles[i] in repository.roles && IsLower(repository.roles[roles[i]], "Role"))
         && valid(Merged([repository.global] + RoleDocuments(repository, roles) + [host]))
  {
    hide IsSound, DocumentIssues, Merged, AllIssues;
    if name in repository.hosts {
      var host := repository.hosts[name];
      var roles := RolesOf(host);
      RoleLayersFollowTheHost(repository, roles);
      if RoleLayers(repository, roles).Ok? {
        var documents := [repository.global] + RoleLayers(repository, roles).value + [host];
        assert RoleLayers(repository, roles).value == RoleDocuments(repository, roles);
        MergeFailsExactlyWhen(documents);
        LayersAreSound(repository.global, RoleLayers(repository, roles).value, host);
      }
      KindsAreStated(repository, roles, host);
    }
  }

  ghost function RoleDocuments(repository: Repository, roles: seq<string>): (documents: seq<Document>)
    ensures |documents| == |roles|
    ensures forall i :: 0 <= i < |roles| && roles[i] in repository.roles ==> documents[i] == repository.roles[roles[i]]
  {
    seq(|roles|, i requires 0 <= i < |roles| => if roles[i] in repository.roles then repository.roles[roles[i]] else repository.global)
  }

  lemma LayersAreSound(global: Document, roles: seq<Document>, host: Document)
    ensures var documents := [global] + roles + [host];
            (forall i :: 0 <= i < |documents| ==> DocumentIssues(documents[i]) == []) <==>
              IsSound(global) && IsSound(host) && forall i :: 0 <= i < |roles| ==> IsSound(roles[i])
  {
    hide IsSound, DocumentIssues;
    var documents := [global] + roles + [host];
    forall d
      ensures DocumentIssues(d) == [] <==> IsSound(d)
    {
      DocumentIsSoundExactlyWhen(d);
    }
    assert documents[0] == global && documents[|documents| - 1] == host;
    assert forall i :: 0 <= i < |roles| ==> documents[i + 1] == roles[i];
    assert forall i :: 0 < i < |documents| - 1 ==> documents[i] == roles[i - 1];
  }

  lemma KindsAreStated(repository: Repository, roles: seq<string>, host: Document)
    ensures IsLower(repository.global, "Global") <==> IsSound(repository.global) && LayerFault(repository.global, GLOBAL).None?
    ensures (IsSound(host) && host.kind == Some("Host")) <==> IsSound(host) && LayerFault(host, HOST).None?
    ensures forall i :: 0 <= i < |roles| && roles[i] in repository.roles ==>
      (IsLower(repository.roles[roles[i]], "Role") <==>
       IsSound(repository.roles[roles[i]]) && LayerFault(repository.roles[roles[i]], ROLE).None?)
  {
    hide EveryEntry, NotNil;
    assert |GLOBAL| == 6 && |ROLE| == 4 && |HOST| == 4 && ROLE[0] != HOST[0];
  }
}
