// Catalog layers and how they are merged and resolved (internal/catalog/merge.go, repository.go:65-138).
module Catalog {
  import opened Text
  import opened Sorting

  const GLOBAL := "Global"
  const ROLE := "Role"
  const HOST := "Host"

  datatype Issue = Issue(path: string, message: string)

  // A map a document states; it may be a nil map.
  datatype Table<+V> = Nil | Entries(entries: map<string, V>)

  datatype RiskPolicy = RiskPolicy(allowed: set<string>)

  datatype PacmanPin = PacmanPin(package: string, version: string, source: string, sha256: string)

  datatype PacmanDocument = PacmanDocument(
    package: Option<string>,
    version: Option<string>,
    source: Option<string>,
    sha256: Option<string>)

  datatype AurPin = AurPin(sourceCommit: string, patchSha256: string)

  datatype AurDocument = AurDocument(sourceCommit: Option<string>, patchSha256: Option<string>)

  datatype RemotePin = RemotePin(url: string, sha256: string)

  datatype RemoteDocument = RemoteDocument(url: Option<string>, sha256: Option<string>)

  datatype CheckoutPin = CheckoutPin(remote: string, branch: string, commit: string)

  datatype CheckoutDocument = CheckoutDocument(remote: Option<string>, branch: Option<string>, commit: Option<string>)

  datatype PinsDocument = PinsDocument(
    npm: Option<Table<string>>,
    pacman: Option<Table<PacmanDocument>>,
    aur: Option<Table<AurDocument>>,
    remote: Option<Table<RemoteDocument>>,
    local: Option<Table<string>>)

  datatype Pins = Pins(
    npm: Option<map<string, string>>,
    pacman: Option<map<string, PacmanPin>>,
    aur: Option<map<string, AurPin>>,
    remote: Option<map<string, RemotePin>>,
    local: Option<map<string, string>>)

  // What one layer states; None is an omitted field.
  datatype Document = Document(
    version: Option<int>,
    kind: Option<string>,
    roles: Option<seq<string>>,
    risk: Option<RiskPolicy>,
    modules: Option<map<string, bool>>,
    templates: Option<seq<string>>,
    overlays: Option<seq<string>>,
    pins: Option<PinsDocument>,
    checkouts: Option<Table<CheckoutDocument>>)

  datatype Catalog = Catalog(
    version: int,
    kind: string,
    roles: Option<seq<string>>,
    risk: Option<RiskPolicy>,
    modules: Option<map<string, bool>>,
    templates: Option<seq<string>>,
    overlays: Option<seq<string>>,
    pins: Option<Pins>,
    checkouts: Option<map<string, CheckoutPin>>)

  const NO_PINS := Pins(None, None, None, None, None)

  const EMPTY := Catalog(0, "", None, None, None, None, None, None, None)

  // ---- Entries ----

  function EscapeSegment(part: string): string {
    if part == "" then ""
    else (if part[0] == '~' then "~0" else if part[0] == '/' then "~1" else [part[0]]) + EscapeSegment(part[1..])
  }

  function Child(parent: string, part: string): string {
    (if parent == "/" then "" else parent) + "/" + EscapeSegment(part)
  }

  // What an entry of a document becomes: a complete value, or the reasons why not.
  datatype Converted<+V> = Complete(value: V) | Faulty(issues: seq<Issue>)

  type Conversion<!D, !V> = (string, D) -> Converted<V>

  function Missing(source: string, name: string, field: string, value: Option<string>): seq<Issue> {
    if value.Some? then []
    else [Issue(Child(Child(Child("/pins", source), name), field), "required pin field is missing")]
  }

  function ConvertString(name: string, value: string): Converted<string> {
    Complete(value)
  }

  function ConvertPacman(name: string, pin: PacmanDocument): Converted<PacmanPin> {
    var issues := Missing("pacmanArtifacts", name, "package", pin.package)
      + Missing("pacmanArtifacts", name, "version", pin.version)
      + Missing("pacmanArtifacts", name, "source", pin.source)
      + Missing("pacmanArtifacts", name, "sha256", pin.sha256);
    if pin.package.Some? && pin.version.Some? && pin.source.Some? && pin.sha256.Some? then
      Complete(PacmanPin(pin.package.value, pin.version.value, pin.source.value, pin.sha256.value))
    else Faulty(issues)
  }

  function ConvertAur(name: string, pin: AurDocument): Converted<AurPin> {
    if pin.sourceCommit.Some? && pin.patchSha256.Some? then Complete(AurPin(pin.sourceCommit.value, pin.patchSha256.value))
    else
      Faulty(Missing("aurLocal", name, "sourceCommit", pin.sourceCommit)
             + Missing("aurLocal", name, "patchSHA256", pin.patchSha256))
  }

  function ConvertRemote(name: string, pin: RemoteDocument): Converted<RemotePin> {
    if pin.url.Some? && pin.sha256.Some? then Complete(RemotePin(pin.url.value, pin.sha256.value))
    else Faulty(Missing("remoteArtifacts", name, "url", pin.url) + Missing("remoteArtifacts", name, "sha256", pin.sha256))
  }

  function CheckoutField(name: string, field: string, value: Option<string>): seq<Issue> {
    var path := Child(Child("/checkoutPins", name), field);
    if value.None? then [Issue(path, "required checkout-pin field is missing")]
    else if value.value == "" then [Issue(path, "required checkout-pin field is empty")]
    else []
  }

  predicate Given(value: Option<string>) {
    value.Some? && value.value != ""
  }

  function ConvertCheckout(name: string, pin: CheckoutDocument): Converted<CheckoutPin> {
    if Given(pin.remote) && Given(pin.branch) && Given(pin.commit) then
      Complete(CheckoutPin(pin.remote.value, pin.branch.value, pin.commit.value))
    else
      Faulty(CheckoutField(name, "remote", pin.remote) + CheckoutField(name, "branch", pin.branch)
             + CheckoutField(name, "commit", pin.commit))
  }

  // ---- One map of one document ----

  // The entries that are complete, and what is wrong with the others, by name.
  function Accepted<D, V>(entries: map<string, D>, convert: Conversion<D, V>): map<string, V> {
    AcceptedOf(entries.Keys, entries, convert)
  }

  function AcceptedOf<D, V>(names: set<string>, entries: map<string, D>, convert: Conversion<D, V>): map<string, V>
    requires names <= entries.Keys
  {
    map name | name in names && convert(name, entries[name]).Complete? :: convert(name, entries[name]).value
  }

  lemma AcceptOne<D, V>(base: map<string, V>, names: set<string>, name: string, entries: map<string, D>, convert: Conversion<D, V>)
    requires names <= entries.Keys && name in entries
    ensures base + AcceptedOf(names + {name}, entries, convert) ==
      match convert(name, entries[name])
      case Complete(value) => (base + AcceptedOf(names, entries, convert))[name := value]
      case Faulty(_) => base + AcceptedOf(names, entries, convert)
  {
  }

  function EntryIssues<D, V>(names: seq<string>, entries: map<string, D>, convert: Conversion<D, V>): seq<Issue>
    requires forall name :: name in names ==> name in entries
  {
    if names == [] then []
    else
      var last := names[|names| - 1];
      EntryIssues(names[..|names| - 1], entries, convert)
      + (match convert(last, entries[last])
         case Complete(_) => []
         case Faulty(issues) => issues)
  }

  function Over<V>(destination: Option<map<string, V>>, entries: map<string, V>): Option<map<string, V>> {
    Some((if destination.Some? then destination.value else map[]) + entries)
  }

  function MergedTable<D, V>(destination: Option<map<string, V>>, source: Option<Table<D>>, convert: Conversion<D, V>):
    Option<map<string, V>>
  {
    if source.None? || source.value.Nil? then destination
    else Over(destination, Accepted(source.value.entries, convert))
  }

  ghost function TableIssues<D, V>(source: Option<Table<D>>, nothing: Issue, convert: Conversion<D, V>): seq<Issue> {
    if source.None? then []
    else if source.value.Nil? then [nothing]
    else
      InOrderIsSorted(PLAIN, source.value.entries.Keys);
      assert forall name :: name in InOrder(PLAIN, source.value.entries.Keys) ==>
        name in Elements(InOrder(PLAIN, source.value.entries.Keys));
      EntryIssues(InOrder(PLAIN, source.value.entries.Keys), source.value.entries, convert)
  }

  // The five mergers of pin sources and the one of checkout pins, which differ in how they read an entry.
  method MergeTable<D, V>(destination: Option<map<string, V>>, source: Table<D>, nothing: Issue, convert: Conversion<D, V>)
    returns (merged: Option<map<string, V>>, issues: seq<Issue>)
    ensures merged == MergedTable(destination, Some(source), convert)
    ensures issues == TableIssues(Some(source), nothing, convert)
  {
    hide AcceptedOf, InOrder;
    if source.Nil? { return destination, [nothing]; }
    var entries := source.entries;
    var result := if destination.Some? then destination.value else map[];
    ghost var base := result;
    issues := [];
    var names := SortedKeys(entries.Keys);
    assert forall name :: name in names ==> name in Elements(names);
    assert base + AcceptedOf({}, entries, convert) == base by { NothingAccepted(base, entries, convert); }
    assert Elements(names[..0]) == {};
    for i := 0 to |names|
      invariant Elements(names[..i]) <= entries.Keys
      invariant result == base + AcceptedOf(Elements(names[..i]), entries, convert)
      invariant issues == EntryIssues(names[..i], entries, convert)
    {
      var name := names[i];
      PrefixElements(names, i);
      AcceptOne(base, Elements(names[..i]), name, entries, convert);
      assert names[..i + 1][..i] == names[..i];
      match convert(name, entries[name]) {
        case Complete(value) => result := result[name := value];
        case Faulty(more) => issues := issues + more;
      }
    }
    assert names[..|names|] == names;
    merged := Some(result);
  }

  lemma NothingAccepted<D, V>(base: map<string, V>, entries: map<string, D>, convert: Conversion<D, V>)
    ensures base + AcceptedOf({}, entries, convert) == base
  {
  }

  // The same for a map the document may omit.
  method MergeSource<D, V>(destination: Option<map<string, V>>, source: Option<Table<D>>, nothing: Issue, convert: Conversion<D, V>)
    returns (merged: Option<map<string, V>>, issues: seq<Issue>)
    ensures merged == MergedTable(destination, source, convert)
    ensures issues == TableIssues(source, nothing, convert)
  {
    merged, issues := destination, [];
    if source.Some? { merged, issues := MergeTable(destination, source.value, nothing, convert); }
  }

  // ---- One document ----

  const NIL_PINS := "pin definitions are nil"

  ghost function PinsIssues(source: PinsDocument): seq<Issue> {
    TableIssues(source.npm, Issue("/pins/npm", NIL_PINS), ConvertString)
    + TableIssues(source.local, Issue("/pins/localPathPackages", NIL_PINS), ConvertString)
    + TableIssues(source.pacman, Issue("/pins/pacmanArtifacts", NIL_PINS), ConvertPacman)
    + TableIssues(source.aur, Issue("/pins/aurLocal", NIL_PINS), ConvertAur)
    + TableIssues(source.remote, Issue("/pins/remoteArtifacts", NIL_PINS), ConvertRemote)
  }

  function MergedPins(pins: Option<Pins>, source: PinsDocument): Pins {
    var base := if pins.Some? then pins.value else NO_PINS;
    Pins(
      MergedTable(base.npm, source.npm, ConvertString),
      MergedTable(base.pacman, source.pacman, ConvertPacman),
      MergedTable(base.aur, source.aur, ConvertAur),
      MergedTable(base.remote, source.remote, ConvertRemote),
      MergedTable(base.local, source.local, ConvertString))
  }

  function VersionIssues(version: Option<int>): seq<Issue> {
    if version.None? then [Issue("/catalogVersion", "required catalog field is missing")]
    else if version.value != 1 then [Issue("/catalogVersion", "unsupported catalog version")]
    else []
  }

  function KindIssues(kind: Option<string>): seq<Issue> {
    if kind.None? then [Issue("/kind", "required catalog field is missing")]
    else if kind.value != GLOBAL && kind.value != ROLE && kind.value != HOST then [Issue("/kind", "unsupported catalog kind")]
    else []
  }

  const NIL_CHECKOUTS := Issue("/checkoutPins", "checkout-pin definitions are nil")

  ghost function DocumentIssues(document: Document): seq<Issue> {
    VersionIssues(document.version) + KindIssues(document.kind)
    + TableIssues(document.checkouts, NIL_CHECKOUTS, ConvertCheckout)
    + (if document.pins.Some? then PinsIssues(document.pins.value) else [])
  }

  function Override<T>(before: Option<T>, stated: Option<T>): Option<T> {
    if stated.Some? then stated else before
  }

  function MergeOne(merged: Catalog, document: Document): Catalog {
    Catalog(
      if document.version.Some? then document.version.value else merged.version,
      if document.kind.Some? then document.kind.value else merged.kind,
      Override(merged.roles, document.roles),
      Override(merged.risk, document.risk),
      if document.modules.Some? then Over(merged.modules, document.modules.value) else merged.modules,
      Override(merged.templates, document.templates),
      Override(merged.overlays, document.overlays),
      if document.pins.Some? then Some(MergedPins(merged.pins, document.pins.value)) else merged.pins,
      MergedTable(merged.checkouts, document.checkouts, ConvertCheckout))
  }

  method MergePins(pins: Option<Pins>, source: PinsDocument, before: seq<Issue>)
    returns (merged: Pins, issues: seq<Issue>)
    ensures merged == MergedPins(pins, source)
    ensures issues == before + PinsIssues(source)
  {
    hide MergedTable, TableIssues;
    var base := if pins.Some? then pins.value else NO_PINS;
    var npm, a := MergeSource(base.npm, source.npm, Issue("/pins/npm", NIL_PINS), ConvertString);
    var local, b := MergeSource(base.local, source.local, Issue("/pins/localPathPackages", NIL_PINS), ConvertString);
    var pacman, c := MergeSource(base.pacman, source.pacman, Issue("/pins/pacmanArtifacts", NIL_PINS), ConvertPacman);
    var aur, d := MergeSource(base.aur, source.aur, Issue("/pins/aurLocal", NIL_PINS), ConvertAur);
    var remote, e := MergeSource(base.remote, source.remote, Issue("/pins/remoteArtifacts", NIL_PINS), ConvertRemote);
    merged := Pins(npm, pacman, aur, remote, local);
    issues := before + (a + b + c + d + e);
  }

  // One turn of the loop over the documents.
  method MergeDocument(catalog: Catalog, document: Document, before: seq<Issue>)
    returns (merged: Catalog, issues: seq<Issue>)
    ensures merged == MergeOne(catalog, document)
    ensures issues == before + DocumentIssues(document)
  {
    hide MergedPins, PinsIssues, MergedTable, TableIssues;
    merged := catalog;
    var found := VersionIssues(document.version) + KindIssues(document.kind);
    if document.version.Some? { merged := merged.(version := document.version.value); }
    if document.kind.Some? { merged := merged.(kind := document.kind.value); }
    if document.modules.Some? { merged := merged.(modules := Over(merged.modules, document.modules.value)); }
    if document.roles.Some? { merged := merged.(roles := document.roles); }
    if document.risk.Some? { merged := merged.(risk := document.risk); }
    if document.templates.Some? { merged := merged.(templates := document.templates); }
    if document.overlays.Some? { merged := merged.(overlays := document.overlays); }
    var table, more := MergeSource(merged.checkouts, document.checkouts, NIL_CHECKOUTS, ConvertCheckout);
    merged, found := merged.(checkouts := table), found + more;
    if document.pins.Some? {
      var pins;
      pins, found := MergePins(merged.pins, document.pins.value, found);
      merged := merged.(pins := Some(pins));
    }
    issues := before + found;
  }

  // ---- All documents ----

  function Merged(documents: seq<Document>): Catalog {
    if documents == [] then EMPTY
    else MergeOne(Merged(documents[..|documents| - 1]), documents[|documents| - 1])
  }

  ghost function AllIssues(documents: seq<Document>): seq<Issue> {
    if documents == [] then []
    else AllIssues(documents[..|documents| - 1]) + DocumentIssues(documents[|documents| - 1])
  }

  predicate IssueLess(a: Issue, b: Issue) {
    if a.path == b.path then Less(a.message, b.message) else Less(a.path, b.path)
  }

  // sort.SliceStable by path, then message.
  function SortIssues(issues: seq<Issue>): seq<Issue> {
    SortBy(IssueLess, issues)
  }

  datatype MergeError = NoDocuments | Invalid(issues: seq<Issue>)

  method MergeDocuments(documents: seq<Document>) returns (result: Result<Catalog, MergeError>)
    ensures documents == [] ==> result == Err(NoDocuments)
    ensures documents != [] ==>
      result == if AllIssues(documents) == [] then Ok(Merged(documents)) else Err(Invalid(SortIssues(AllIssues(documents))))
  {
    hide MergeOne, DocumentIssues, SortIssues;
    if documents == [] { return Err(NoDocuments); }
    var merged, issues := EMPTY, [];
    for i := 0 to |documents|
      invariant merged == Merged(documents[..i]) && issues == AllIssues(documents[..i])
    {
      assert documents[..i + 1][..i] == documents[..i];
      merged, issues := MergeDocument(merged, documents[i], issues);
    }
    assert documents[..|documents|] == documents;
    if issues != [] { return Err(Invalid(SortIssues(issues))); }
    return Ok(merged);
  }

  // ---- Resolving a host (repository.go) ----

  datatype Repository = Repository(global: Document, roles: map<string, Document>, hosts: map<string, Document>)

  datatype Policy = Policy(name: string, roles: Option<seq<string>>, desired: Catalog, risks: RiskPolicy)

  datatype LayerError = VersionMissing | KindMissing | WrongKind | RolesAreHostOwned | RiskIsHostOwned

  datatype ResolveError =
    | UnknownHost
    | Layer(layer: string, fault: LayerError)
    | DuplicateRole(index: nat)
    | UnknownRole(index: nat)
    | Unmerged(error: MergeError)
    | Unsupported

  const DENIED := RiskPolicy({})

  function LayerFault(document: Document, want: string): Option<LayerError> {
    if document.version.None? then Some(VersionMissing)
    else if document.kind.None? then Some(KindMissing)
    else if document.kind.value != want then Some(WrongKind)
    else if want != HOST && document.roles.Some? then Some(RolesAreHostOwned)
    else if want != HOST && document.risk.Some? then Some(RiskIsHostOwned)
    else None
  }

  function RolesOf(document: Document): seq<string> {
    if document.roles.Some? then document.roles.value else []
  }

  // The layers of a host, lowest first, or the first role that cannot be taken.
  function RoleLayers(repository: Repository, roles: seq<string>): Result<seq<Document>, ResolveError> {
    if roles == [] then Ok([])
    else
      var i, last := |roles| - 1, roles[|roles| - 1];
      match RoleLayers(repository, roles[..i])
      case Err(error) => Err(error)
      case Ok(layers) =>
        if last in roles[..i] then Err(DuplicateRole(i))
        else if last !in repository.roles then Err(UnknownRole(i))
        else
          match LayerFault(repository.roles[last], ROLE)
          case Some(fault) => Err(Layer("role " + last, fault))
          case None => Ok(layers + [repository.roles[last]])
  }

  // Validation of the merged catalog against its assets is a parameter.
  ghost function Resolved(repository: Repository, valid: Catalog -> bool, name: string): Result<Policy, ResolveError> {
    if name !in repository.hosts then Err(UnknownHost)
    else
      var host := repository.hosts[name];
      if LayerFault(repository.global, GLOBAL).Some? then Err(Layer("global", LayerFault(repository.global, GLOBAL).value))
      else if LayerFault(host, HOST).Some? then Err(Layer("host " + name, LayerFault(host, HOST).value))
      else
        match RoleLayers(repository, RolesOf(host))
        case Err(error) => Err(error)
        case Ok(roles) =>
          var documents := [repository.global] + roles + [host];
          if AllIssues(documents) != [] then Err(Unmerged(Invalid(SortIssues(AllIssues(documents)))))
          else if !valid(Merged(documents)) then Err(Unsupported)
          else Ok(Policy(name, host.roles, Merged(documents), if host.risk.Some? then host.risk.value else DENIED))
  }

  lemma {:induction false} FirstFaultStops(repository: Repository, roles: seq<string>, k: nat)
    requires k <= |roles| && RoleLayers(repository, roles[..k]).Err?
    ensures RoleLayers(repository, roles) == RoleLayers(repository, roles[..k])
    decreases |roles|
  {
    if k < |roles| {
      assert roles[..|roles| - 1][..k] == roles[..k];
      FirstFaultStops(repository, roles[..|roles| - 1], k);
    } else {
      assert roles[..k] == roles;
    }
  }

  method LoadRoles(repository: Repository, roles: seq<string>) returns (result: Result<seq<Document>, ResolveError>)
    ensures result == RoleLayers(repository, roles)
  {
    hide LayerFault;
    var documents: seq<Document> := [];
    var seen: set<string> := {};
    for i := 0 to |roles|
      invariant RoleLayers(repository, roles[..i]) == Ok(documents)
      invariant seen == Elements(roles[..i])
    {
      var role := roles[i];
      PrefixElements(roles, i);
      assert roles[..i + 1][..i] == roles[..i];
      ghost var here := RoleLayers(repository, roles[..i + 1]);
      if here.Err? { FirstFaultStops(repository, roles, i + 1); }
      assert role in seen <==> role in roles[..i];
      if role in seen { return Err(DuplicateRole(i)); }
      seen := seen + {role};
      if role !in repository.roles { return Err(UnknownRole(i)); }
      var fault := LayerFault(repository.roles[role], ROLE);
      if fault.Some? { return Err(Layer("role " + role, fault.value)); }
      documents := documents + [repository.roles[role]];
    }
    assert roles[..|roles|] == roles;
    return Ok(documents);
  }

  method Resolve(repository: Repository, valid: Catalog -> bool, name: string) returns (result: Result<Policy, ResolveError>)
    ensures result == Resolved(repository, valid, name)
  {
    hide LayerFault, RoleLayers, AllIssues, Merged, SortIssues;
    if name !in repository.hosts { return Err(UnknownHost); }
    var host := repository.hosts[name];
    var fault := LayerFault(repository.global, GLOBAL);
    if fault.Some? { return Err(Layer("global", fault.value)); }
    fault := LayerFault(host, HOST);
    if fault.Some? { return Err(Layer("host " + name, fault.value)); }
    var roles := LoadRoles(repository, RolesOf(host));
    if roles.Err? { return Err(roles.error); }
    var desired := MergeDocuments([repository.global] + roles.value + [host]);
    if desired.Err? { return Err(Unmerged(desired.error)); }
    if !valid(desired.value) { return Err(Unsupported); }
    var risks := DENIED;
    if host.risk.Some? { risks := host.risk.value; }
    return Ok(Policy(name, host.roles, desired.value, risks));
  }
}
