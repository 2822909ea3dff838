/**
 Final-set semantics of tools/debian_semantics.py and the indexed dependency
 report of native/audit_transition.py.

 A call that raises is an `Invalid` outcome, and `any(...)` stops at the first
 match or the first raise, so the scans below keep the evaluation order.
 */
module FinalSet {
  import opened NiaCommon
  import opened DebianVersion

  datatype Operator = NoOperator | Earlier | EarlierEqual | Exactly | LaterEqual | Later
  datatype Qualifier = Unqualified | AnyArchitecture | Native | Amd64
  datatype Atom = Atom(name: string, architecture: Qualifier, operator: Operator, version: string)

  /** Comma-separated groups of alternatives, as `relations` returns them. */
  type Groups = seq<seq<Atom>>

  /** A candidate. Each relation field holds the outcome of `relations` on its text. */
  datatype Package = Package(
    id: string, name: string, version: string, architecture: string, multiArch: string,
    capabilities: seq<(string, Option<string>)>,
    depends: Result<Groups>, preDepends: Result<Groups>,
    conflicts: Result<Groups>, breaks: Result<Groups>)

  predicate QualifiedArchitecture(p: Package) {
    p.architecture in ["amd64", "all"]
  }

  predicate QualifiedMode(p: Package) {
    p.multiArch in ["no", "same", "foreign", "allowed"]
  }

  predicate Qualified(p: Package) {
    QualifiedArchitecture(p) && QualifiedMode(p)
  }

  // ----- One provider against one atom -----

  predicate OperatorHolds(operator: Operator, sign: int) {
    match operator
    case NoOperator => true
    case Earlier => sign < 0
    case EarlierEqual => sign <= 0
    case Exactly => sign == 0
    case LaterEqual => sign >= 0
    case Later => sign > 0
  }

  ghost function SatisfiesVersion(provided: Option<string>, atom: Atom): Result<bool> {
    if atom.operator == NoOperator then Ok(true)
    else if provided == None then Ok(false)
    else if !ValidVersion(provided.value) then Invalid(SplitVersion(provided.value).reason)
    else if !ValidVersion(atom.version) then Invalid(SplitVersion(atom.version).reason)
    else Ok(OperatorHolds(atom.operator, Comparison(provided.value, atom.version)))
  }

  method CheckVersion(provided: Option<string>, atom: Atom) returns (r: Result<bool>)
    ensures r == SatisfiesVersion(provided, atom)
  {
    if atom.operator == NoOperator { return Ok(true); }
    if provided == None { return Ok(false); }
    var sign := Compare(provided.value, atom.version);
    if sign.Invalid? {
      return Invalid(if ValidVersion(provided.value) then SplitVersion(atom.version).reason else sign.reason);
    }
    return Ok(OperatorHolds(atom.operator, sign.value));
  }

  ghost predicate Meets(provided: string, operator: Operator, wanted: string) {
    forall name, architecture ::
      SatisfiesVersion(Some(provided), Atom(name, architecture, operator, wanted)) == Ok(true)
  }

  /** What the operators ask: the wanted version before, at or after the provided one. */
  lemma OperatorsMean(provided: string, wanted: string)
    requires ValidVersion(provided) && ValidVersion(wanted)
    ensures Meets(provided, LaterEqual, wanted) <==> Comparison(wanted, provided) <= 0
    ensures Meets(provided, EarlierEqual, wanted) <==> Comparison(provided, wanted) <= 0
    ensures Meets(provided, Later, wanted) <==> !Meets(provided, EarlierEqual, wanted)
    ensures Meets(provided, Earlier, wanted) <==> !Meets(provided, LaterEqual, wanted)
    ensures Meets(provided, Exactly, wanted) <==>
            Meets(provided, EarlierEqual, wanted) && Meets(provided, LaterEqual, wanted)
    ensures Meets(provided, NoOperator, wanted)
  {
    hide Comparison, ValidVersion, SplitVersion;
    ComparisonAntisymmetric(wanted, provided);
    forall operator
      ensures Meets(provided, operator, wanted) <==> OperatorHolds(operator, Comparison(provided, wanted))
    {
      assert SatisfiesVersion(Some(provided), Atom("", Native, operator, wanted)) ==
             Ok(OperatorHolds(operator, Comparison(provided, wanted)));
    }
  }

  /** A later version still meets a lower bound, and an earlier one an upper bound. */
  lemma BoundsAreKept(lower: string, higher: string, wanted: string)
    requires ValidVersion(lower) && ValidVersion(higher) && ValidVersion(wanted) && Comparison(lower, higher) <= 0
    ensures Meets(lower, LaterEqual, wanted) ==> Meets(higher, LaterEqual, wanted)
    ensures Meets(lower, Later, wanted) ==> Meets(higher, Later, wanted)
    ensures Meets(higher, EarlierEqual, wanted) ==> Meets(lower, EarlierEqual, wanted)
    ensures Meets(higher, Earlier, wanted) ==> Meets(lower, Earlier, wanted)
  {
    hide Comparison, ValidVersion, SplitVersion, Meets;
    OperatorsMean(lower, wanted);
    OperatorsMean(higher, wanted);
    ComparisonTransitive(wanted, lower, higher);
    ComparisonTransitive(lower, higher, wanted);
    ComparisonAntisymmetric(wanted, lower);
    ComparisonAntisymmetric(wanted, higher);
    ComparisonAntisymmetric(lower, higher);
  }

  ghost function ProvidesMatch(capabilities: seq<(string, Option<string>)>, atom: Atom): Result<bool> {
    if capabilities == [] then Ok(false)
    else if capabilities[0].0 != atom.name then ProvidesMatch(capabilities[1..], atom)
    else
      var first := SatisfiesVersion(capabilities[0].1, atom);
      if first == Ok(false) then ProvidesMatch(capabilities[1..], atom) else first
  }

  /** `provider_matches`. */
  ghost function ProviderMatches(p: Package, atom: Atom): Result<bool> {
    if !QualifiedArchitecture(p) then Invalid("foreign architecture is not qualified")
    else if !QualifiedMode(p) then Invalid("unknown Multi-Arch mode")
    else if atom.architecture == AnyArchitecture && p.multiArch != "allowed" then Ok(false)
    else
      var own := if p.name == atom.name then SatisfiesVersion(Some(p.version), atom) else Ok(false);
      if own == Ok(false) then ProvidesMatch(p.capabilities, atom) else own
  }

  /** The version need of an atom can be judged without a raise. */
  ghost predicate Judgeable(provided: Option<string>, atom: Atom) {
    SatisfiesVersion(provided, atom).Ok?
  }

  ghost predicate CapabilityMeets(capability: (string, Option<string>), atom: Atom) {
    capability.0 == atom.name && SatisfiesVersion(capability.1, atom) == Ok(true)
  }

  lemma {:induction false} CapabilitiesMeet(capabilities: seq<(string, Option<string>)>, atom: Atom)
    requires forall c :: c in capabilities ==> Judgeable(c.1, atom)
    ensures ProvidesMatch(capabilities, atom).Ok?
    ensures ProvidesMatch(capabilities, atom).value <==> exists c :: c in capabilities && CapabilityMeets(c, atom)
  {
    hide SatisfiesVersion;
    if capabilities != [] {
      var first, rest := capabilities[0], capabilities[1..];
      assert first in capabilities && forall c :: c in rest ==> c in capabilities;
      assert forall c :: c in capabilities <==> c == first || c in rest;
      CapabilitiesMeet(rest, atom);
      assert CapabilityMeets(first, atom) ==> exists c :: c in capabilities && CapabilityMeets(c, atom);
    }
  }

  /**
   Where every version can be read, a package matches exactly when its own name and version meet
   the atom or one of its capabilities does, and it is marked `allowed` if any architecture is asked.
   */
  lemma ProviderMatchesMeaning(p: Package, atom: Atom)
    requires Qualified(p) && Judgeable(Some(p.version), atom)
    requires forall c :: c in p.capabilities ==> Judgeable(c.1, atom)
    ensures ProviderMatches(p, atom).Ok?
    ensures ProviderMatches(p, atom).value <==>
            && (atom.architecture == AnyArchitecture ==> p.multiArch == "allowed")
            && (|| CapabilityMeets((p.name, Some(p.version)), atom)
                || exists c :: c in p.capabilities && CapabilityMeets(c, atom))
  {
    hide SatisfiesVersion, ProvidesMatch;
    CapabilitiesMeet(p.capabilities, atom);
  }

  method MatchProvider(p: Package, atom: Atom) returns (r: Result<bool>)
    ensures r == ProviderMatches(p, atom)
  {
    if !QualifiedArchitecture(p) { return Invalid("foreign architecture is not qualified"); }
    if !QualifiedMode(p) { return Invalid("unknown Multi-Arch mode"); }
    if atom.architecture == AnyArchitecture && p.multiArch != "allowed" { return Ok(false); }
    if p.name == atom.name {
      r := CheckVersion(Some(p.version), atom);
      if r != Ok(false) { return; }
    }
    for i := 0 to |p.capabilities|
      invariant ProvidesMatch(p.capabilities, atom) == ProvidesMatch(p.capabilities[i..], atom)
    {
      if p.capabilities[i].0 == atom.name {
        r := CheckVersion(p.capabilities[i].1, atom);
        if r != Ok(false) { return; }
      }
    }
    return Ok(false);
  }

  // ----- Scans -----

  ghost function ScanProviders(list: seq<Package>, atom: Atom): Result<bool> {
    if list == [] then Ok(false)
    else
      var first := ProviderMatches(list[0], atom);
      if first == Ok(false) then ScanProviders(list[1..], atom) else first
  }

  /** `any(provider_matches(p, atom) for atom in group for p in list(atom))`. */
  ghost function ScanGroup(group: seq<Atom>, list: string -> seq<Package>): Result<bool> {
    if group == [] then Ok(false)
    else
      var first := ScanProviders(list(group[0].name), group[0]);
      if first == Ok(false) then ScanGroup(group[1..], list) else first
  }

  ghost function PlainScan(group: seq<Atom>, selected: seq<Package>): Result<bool> {
    ScanGroup(group, name => selected)
  }

  ghost function IndexedScan(group: seq<Atom>, selected: seq<Package>): Result<bool> {
    ScanGroup(group, name => ByName(selected, name))
  }

  predicate Capable(p: Package, name: string) {
    p.name == name || exists i :: 0 <= i < |p.capabilities| && p.capabilities[i].0 == name
  }

  /** The packages a name is indexed to, in the order they were selected. */
  function ByName(selected: seq<Package>, name: string): seq<Package> {
    if selected == [] then []
    else
      var front := ByName(selected[..|selected| - 1], name);
      if Capable(selected[|selected| - 1], name) then front + [selected[|selected| - 1]] else front
  }

  method AnyProvider(list: seq<Package>, atom: Atom) returns (r: Result<bool>)
    ensures r == ScanProviders(list, atom)
  {
    for i := 0 to |list|
      invariant ScanProviders(list, atom) == ScanProviders(list[i..], atom)
    {
      r := MatchProvider(list[i], atom);
      if r != Ok(false) { return; }
    }
    return Ok(false);
  }

  // ----- Capability index -----

  ghost predicate IndexOf(index: map<string, seq<Package>>, selected: seq<Package>) {
    forall name :: ByName(selected, name) == if name in index then index[name] else []
  }

  function Names(p: Package): set<string> {
    {p.name} + set i | 0 <= i < |p.capabilities| :: p.capabilities[i].0
  }

  method BuildIndex(selected: seq<Package>) returns (index: map<string, seq<Package>>)
    ensures IndexOf(index, selected)
  {
    hide ByName, Capable, Names;
    index := map[];
    NothingIndexed();
    TakeAll(selected);
    for k := 0 to |selected|
      invariant IndexOf(index, selected[..k])
    {
      var p := selected[k];
      ghost var before := index;
      var names := Names(p);
      while names != {}
        invariant names <= Names(p)
        invariant forall name :: name in names || name !in Names(p) ==>
                    (name in index <==> name in before) && (name in before ==> index[name] == before[name])
        invariant forall name :: name in Names(p) && name !in names ==>
                    name in index && index[name] == (if name in before then before[name] else []) + [p]
        decreases names
      {
        var name :| name in names;
        index := index[name := (if name in index then index[name] else []) + [p]];
        names := names - {name};
      }
      forall name
        ensures ByName(selected[..k + 1], name) == if name in index then index[name] else []
      {
        ByNameStep(selected, k, name);
      }
    }
  }

  lemma NothingIndexed()
    ensures IndexOf(map[], [])
  {
  }

  lemma ByNameStep(selected: seq<Package>, k: nat, name: string)
    requires k < |selected|
    ensures ByName(selected[..k + 1], name)
         == ByName(selected[..k], name) + if name in Names(selected[k]) then [selected[k]] else []
  {
    assert selected[..k + 1][..k] == selected[..k];
    assert Capable(selected[k], name) <==> name in Names(selected[k]);
  }

  // ----- The missing-dependency report -----

  datatype Field = PreDepends | Depends
  datatype MissingRow = MissingRow(package: string, field: Field, alternatives: seq<Atom>)

  function FieldOf(p: Package, field: Field): Result<Groups> {
    if field == PreDepends then p.preDepends else p.depends
  }

  type GroupScan = seq<Atom> -> Result<bool>

  /** The unsatisfied groups of one field, in order, under a given scan. */
  ghost function MissingGroups(p: Package, field: Field, groups: Groups, scan: GroupScan): Result<seq<MissingRow>> {
    if groups == [] then Ok([])
    else
      var front := MissingGroups(p, field, groups[..|groups| - 1], scan);
      if front.Invalid? then front
      else
        var last := scan(groups[|groups| - 1]);
        if last.Invalid? then Invalid(last.reason)
        else Ok(front.value + if last.value then [] else [MissingRow(p.name, field, groups[|groups| - 1])])
  }

  ghost function MissingInField(p: Package, field: Field, scan: GroupScan): Result<seq<MissingRow>> {
    var groups := FieldOf(p, field);
    if groups.Invalid? then Invalid(groups.reason) else MissingGroups(p, field, groups.value, scan)
  }

  ghost function JoinReports(a: Result<seq<MissingRow>>, b: Result<seq<MissingRow>>): Result<seq<MissingRow>> {
    if a.Invalid? then a else if b.Invalid? then b else Ok(a.value + b.value)
  }

  ghost function MissingOf(packages: seq<Package>, scan: GroupScan): Result<seq<MissingRow>> {
    if packages == [] then Ok([])
    else
      var p := packages[|packages| - 1];
      JoinReports(MissingOf(packages[..|packages| - 1], scan),
                  JoinReports(MissingInField(p, PreDepends, scan), MissingInField(p, Depends, scan)))
  }

  /** The report with the capability index, and the same report with the plain scan. */
  ghost function IndexedMissing(selected: seq<Package>): Result<seq<MissingRow>> {
    MissingOf(selected, group => IndexedScan(group, selected))
  }

  ghost function PlainMissing(selected: seq<Package>): Result<seq<MissingRow>> {
    MissingOf(selected, group => PlainScan(group, selected))
  }

  method AnyIndexed(group: seq<Atom>, index: map<string, seq<Package>>, ghost selected: seq<Package>)
    returns (r: Result<bool>)
    requires IndexOf(index, selected)
    ensures r == IndexedScan(group, selected)
  {
    for i := 0 to |group|
      invariant IndexedScan(group, selected) == IndexedScan(group[i..], selected)
    {
      var name := group[i].name;
      r := AnyProvider(if name in index then index[name] else [], group[i]);
      if r != Ok(false) { return; }
    }
    return Ok(false);
  }

  lemma NoGroupMissing(p: Package, field: Field, scan: GroupScan)
    ensures MissingGroups(p, field, [], scan) == Ok([])
  {
  }

  lemma GroupStep(p: Package, field: Field, groups: Groups, i: nat, scan: GroupScan)
    requires i < |groups| && MissingGroups(p, field, groups[..i], scan).Ok?
    ensures var found, missing := scan(groups[i]), MissingGroups(p, field, groups[..i], scan).value;
            MissingGroups(p, field, groups[..i + 1], scan) ==
            if found.Invalid? then Invalid(found.reason)
            else Ok(if found.value then missing else missing + [MissingRow(p.name, field, groups[i])])
  {
    var missing := MissingGroups(p, field, groups[..i], scan).value;
    assert missing + [] == missing;
    assert groups[..i + 1][..i] == groups[..i];
  }

  method MissingInFieldRows(p: Package, field: Field, index: map<string, seq<Package>>, ghost selected: seq<Package>)
    returns (r: Result<seq<MissingRow>>)
    requires IndexOf(index, selected)
    ensures r == MissingInField(p, field, group => IndexedScan(group, selected))
  {
    hide MissingGroups;
    ghost var scan := group => IndexedScan(group, selected);
    var groups :- FieldOf(p, field);
    var missing := [];
    NoGroupMissing(p, field, scan);
    TakeAll(groups);
    for i := 0 to |groups|
      invariant MissingGroups(p, field, groups[..i], scan) == Ok(missing)
      invariant forall k :: 0 <= k < i ==> scan(groups[k]).Ok?
    {
      var found := AnyIndexed(groups[i], index, selected);
      assert scan(groups[i]) == found;
      GroupStep(p, field, groups, i, scan);
      if found.Invalid? {
        GroupsRaise(p, field, groups, i, scan);
        return Invalid(found.reason);
      }
      if !found.value { missing := missing + [MissingRow(p.name, field, groups[i])]; }
    }
    return Ok(missing);
  }

  lemma {:induction false} GroupsRaise(p: Package, field: Field, groups: Groups, i: nat, scan: GroupScan)
    requires i < |groups| && MissingGroups(p, field, groups[..i + 1], scan).Invalid?
    ensures MissingGroups(p, field, groups, scan) == MissingGroups(p, field, groups[..i + 1], scan)
    decreases |groups|
  {
    if i + 1 < |groups| {
      assert groups[..|groups| - 1][..i + 1] == groups[..i + 1];
      GroupsRaise(p, field, groups[..|groups| - 1], i, scan);
    } else {
      assert groups[..i + 1] == groups;
    }
  }

  lemma {:induction false} PackagesRaise(packages: seq<Package>, i: nat, scan: GroupScan)
    requires i < |packages| && MissingOf(packages[..i + 1], scan).Invalid?
    ensures MissingOf(packages, scan) == MissingOf(packages[..i + 1], scan)
    decreases |packages|
  {
    if i + 1 < |packages| {
      assert packages[..|packages| - 1][..i + 1] == packages[..i + 1];
      PackagesRaise(packages[..|packages| - 1], i, scan);
    } else {
      assert packages[..i + 1] == packages;
    }
  }

  /** `missing_dependencies`. */
  method MissingDependencies(selected: seq<Package>) returns (r: Result<seq<MissingRow>>)
    ensures r == IndexedMissing(selected)
  {
    ghost var scan := group => IndexedScan(group, selected);
    var index := BuildIndex(selected);
    var missing := [];
    for i := 0 to |selected|
      invariant MissingOf(selected[..i], scan) == Ok(missing)
    {
      assert selected[..i + 1][..i] == selected[..i];
      var before := MissingInFieldRows(selected[i], PreDepends, index, selected);
      if before.Invalid? {
        PackagesRaise(selected, i, scan);
        return before;
      }
      var after := MissingInFieldRows(selected[i], Depends, index, selected);
      if after.Invalid? {
        PackagesRaise(selected, i, scan);
        return after;
      }
      missing := missing + (before.value + after.value);
    }
    assert selected[..|selected|] == selected;
    return Ok(missing);
  }

  // ----- The index agrees with the plain scan -----

  /** A qualified package that cannot provide a name never matches it and never raises. */
  lemma {:induction false} IncapableNeverMatches(capabilities: seq<(string, Option<string>)>, atom: Atom)
    requires forall i :: 0 <= i < |capabilities| ==> capabilities[i].0 != atom.name
    ensures ProvidesMatch(capabilities, atom) == Ok(false)
  {
    if capabilities != [] { IncapableNeverMatches(capabilities[1..], atom); }
  }

  lemma {:induction false} ScanAppend(list: seq<Package>, p: Package, atom: Atom)
    ensures ScanProviders(list + [p], atom) ==
            if ScanProviders(list, atom) == Ok(false) then ProviderMatches(p, atom) else ScanProviders(list, atom)
  {
    if list != [] {
      assert (list + [p])[1..] == list[1..] + [p];
      ScanAppend(list[1..], p, atom);
    }
  }

  /** Dropping the packages not indexed under an atom's name changes its scan only when
      the plain scan raises; with qualified packages it changes nothing. */
  lemma {:induction false} FilterKeepsScan(list: seq<Package>, atom: Atom)
    ensures ScanProviders(list, atom).Ok? || (forall p :: p in list ==> Qualified(p)) ==>
              ScanProviders(ByName(list, atom.name), atom) == ScanProviders(list, atom)
  {
    if list != [] {
      var front, p := list[..|list| - 1], list[|list| - 1];
      assert list == front + [p];
      assert forall q :: q in front ==> q in list;
      FilterKeepsScan(front, atom);
      ScanAppend(front, p, atom);
      ScanAppend(ByName(front, atom.name), p, atom);
      if !Capable(p, atom.name) {
        IncapableNeverMatches(p.capabilities, atom);
        assert Qualified(p) ==> ProviderMatches(p, atom) == Ok(false);
      }
    }
  }

  lemma {:induction false} IndexKeepsGroupScan(group: seq<Atom>, selected: seq<Package>)
    ensures PlainScan(group, selected).Ok? || (forall p :: p in selected ==> Qualified(p)) ==>
              IndexedScan(group, selected) == PlainScan(group, selected)
  {
    if group != [] {
      FilterKeepsScan(selected, group[0]);
      IndexKeepsGroupScan(group[1..], selected);
    }
  }

  lemma {:induction false} GroupsAgree(p: Package, field: Field, groups: Groups, selected: seq<Package>)
    requires forall g :: g in groups ==> IndexedScan(g, selected) == PlainScan(g, selected)
    ensures MissingGroups(p, field, groups, group => IndexedScan(group, selected)) ==
            MissingGroups(p, field, groups, group => PlainScan(group, selected))
  {
    if groups != [] { GroupsAgree(p, field, groups[..|groups| - 1], selected); }
  }

  lemma FieldsAgree(p: Package, field: Field, selected: seq<Package>)
    requires forall q :: q in selected ==> Qualified(q)
    ensures MissingInField(p, field, group => IndexedScan(group, selected)) ==
            MissingInField(p, field, group => PlainScan(group, selected))
  {
    if FieldOf(p, field).Ok? {
      forall g | g in FieldOf(p, field).value
        ensures IndexedScan(g, selected) == PlainScan(g, selected)
      {
        IndexKeepsGroupScan(g, selected);
      }
      GroupsAgree(p, field, FieldOf(p, field).value, selected);
    }
  }

  lemma {:induction false} ReportsAgree(packages: seq<Package>, selected: seq<Package>)
    requires forall q :: q in selected ==> Qualified(q)
    ensures MissingOf(packages, group => IndexedScan(group, selected)) ==
            MissingOf(packages, group => PlainScan(group, selected))
  {
    if packages != [] {
      ReportsAgree(packages[..|packages| - 1], selected);
      FieldsAgree(packages[|packages| - 1], PreDepends, selected);
      FieldsAgree(packages[|packages| - 1], Depends, selected);
    }
  }

  /** On qualified packages the indexed report is the plain report, raises included. */
  lemma IndexAgreesWithPlainScan(selected: seq<Package>)
    requires forall q :: q in selected ==> Qualified(q)
    ensures IndexedMissing(selected) == PlainMissing(selected)
  {
    ReportsAgree(selected, selected);
  }

  // ----- What an answered scan means -----

  lemma {:induction false} ScanProvidersMeaning(list: seq<Package>, atom: Atom)
    requires forall p :: p in list ==> ProviderMatches(p, atom).Ok?
    ensures ScanProviders(list, atom).Ok?
    ensures ScanProviders(list, atom).value <==> exists p :: p in list && ProviderMatches(p, atom) == Ok(true)
  {
    if list != [] {
      var p, rest := list[0], list[1..];
      assert list == [p] + rest;
      assert ProviderMatches(p, atom).Ok?;
      ScanProvidersMeaning(rest, atom);
      assert forall q :: q in list <==> q == p || q in rest;
    }
  }

  /** When nothing raises, a group is satisfied exactly when some selected package matches some alternative. */
  lemma {:induction false} PlainScanMeaning(group: seq<Atom>, selected: seq<Package>)
    requires forall p, a :: p in selected && a in group ==> ProviderMatches(p, a).Ok?
    ensures PlainScan(group, selected).Ok?
    ensures PlainScan(group, selected).value <==>
            exists a, p :: a in group && p in selected && ProviderMatches(p, a) == Ok(true)
  {
    hide ProviderMatches, ScanProviders;
    if group != [] {
      ScanProvidersMeaning(selected, group[0]);
      PlainScanMeaning(group[1..], selected);
      assert forall a :: a in group <==> a == group[0] || a in group[1..];
    }
  }

  // ----- check_final -----

  function Chosen(candidates: seq<Package>, selected: set<string>): seq<Package> {
    if candidates == [] then []
    else
      var front := Chosen(candidates[..|candidates| - 1], selected);
      if candidates[|candidates| - 1].id in selected then front + [candidates[|candidates| - 1]] else front
  }

  ghost predicate GroupsSatisfied(groups: Result<Groups>, chosen: seq<Package>) {
    groups.Ok? && forall g :: g in groups.value ==> PlainScan(g, chosen) == Ok(true)
  }

  /** Every dependency group of every chosen package has a chosen provider. */
  ghost predicate DependenciesAccepted(chosen: seq<Package>) {
    forall p :: p in chosen ==> GroupsSatisfied(p.depends, chosen) && GroupsSatisfied(p.preDepends, chosen)
  }

  /** `any(other['id'] != id and provider_matches(other, atom) for other in list)`. */
  ghost function ScanOthers(list: seq<Package>, id: string, atom: Atom): Result<bool> {
    if list == [] then Ok(false)
    else if list[0].id == id then ScanOthers(list[1..], id, atom)
    else
      var first := ProviderMatches(list[0], atom);
      if first == Ok(false) then ScanOthers(list[1..], id, atom) else first
  }

  ghost predicate NoneExcluded(groups: Result<Groups>, id: string, chosen: seq<Package>) {
    groups.Ok? && forall g :: g in groups.value ==> |g| == 1 && ScanOthers(chosen, id, g[0]) == Ok(false)
  }

  /** `relations(..., alternatives=False)` returns groups of one atom. */
  predicate SingleAtoms(groups: Result<Groups>) {
    groups.Ok? ==> forall g :: g in groups.value ==> |g| == 1
  }

  predicate Parsed(p: Package) {
    SingleAtoms(p.conflicts) && SingleAtoms(p.breaks)
  }

  ghost predicate PackageAccepted(p: Package, chosen: seq<Package>) {
    && QualifiedArchitecture(p) && ValidVersion(p.version)
    && GroupsSatisfied(p.depends, chosen) && GroupsSatisfied(p.preDepends, chosen)
    && NoneExcluded(p.conflicts, p.id, chosen) && NoneExcluded(p.breaks, p.id, chosen)
  }

  predicate IdsDistinct(list: seq<Package>) {
    forall i, j :: 0 <= i < j < |list| ==> list[i].id != list[j].id
  }

  predicate IdentifiersKnown(candidates: seq<Package>, selected: set<string>) {
    && IdsDistinct(candidates)
    && (forall s :: s in selected ==> exists i :: 0 <= i < |candidates| && candidates[i].id == s)
  }

  predicate NamesDistinct(chosen: seq<Package>) {
    forall i, j :: 0 <= i < j < |chosen| ==> chosen[i].name != chosen[j].name
  }

  ghost predicate EachAccepted(packages: seq<Package>, chosen: seq<Package>) {
    packages == [] || (PackageAccepted(packages[0], chosen) && EachAccepted(packages[1..], chosen))
  }

  ghost predicate FinalSetValid(candidates: seq<Package>, selected: set<string>) {
    var chosen := Chosen(candidates, selected);
    && IdentifiersKnown(candidates, selected)
    && NamesDistinct(chosen)
    && EachAccepted(chosen, chosen)
  }

  lemma {:induction false} ChosenAreCandidates(candidates: seq<Package>, selected: set<string>)
    ensures forall p :: p in Chosen(candidates, selected) <==> p in candidates && p.id in selected
  {
    if candidates != [] {
      ChosenAreCandidates(candidates[..|candidates| - 1], selected);
      assert candidates == candidates[..|candidates| - 1] + [candidates[|candidates| - 1]];
    }
  }

  lemma OneMoreId(before: seq<Package>, last: Package)
    requires IdsDistinct(before) && forall i :: 0 <= i < |before| ==> before[i].id != last.id
    ensures IdsDistinct(before + [last])
  {
  }

  lemma {:induction false} ChosenOnce(candidates: seq<Package>, selected: set<string>)
    requires IdsDistinct(candidates)
    ensures IdsDistinct(Chosen(candidates, selected))
  {
    if candidates != [] {
      var front, last := candidates[..|candidates| - 1], candidates[|candidates| - 1];
      ChosenOnce(front, selected);
      ChosenAreCandidates(front, selected);
      var before := Chosen(front, selected);
      forall i | 0 <= i < |before|
        ensures before[i].id != last.id
      {
        assert before[i] in before;
        var k :| 0 <= k < |front| && front[k] == before[i];
        assert candidates[k].id != last.id;
      }
      OneMoreId(before, last);
    }
  }

  /** Each identity that was selected is chosen once. */
  lemma EverySelected(candidates: seq<Package>, selected: set<string>)
    requires IdentifiersKnown(candidates, selected)
    ensures |Chosen(candidates, selected)| == |selected|
  {
    hide Chosen;
    var chosen := Chosen(candidates, selected);
    var ids := seq(|chosen|, (i: nat) requires i < |chosen| => chosen[i].id);
    ChosenAreCandidates(candidates, selected);
    ChosenOnce(candidates, selected);
    forall s | s in selected
      ensures s in Elements(ids)
    {
      var i :| 0 <= i < |candidates| && candidates[i].id == s;
      assert candidates[i] in chosen;
      var k :| 0 <= k < |chosen| && chosen[k] == candidates[i];
      assert ids[k] == s;
    }
    forall k | 0 <= k < |ids| ensures ids[k] in selected { assert chosen[k] in chosen; }
    assert Elements(ids) == selected;
    DistinctCardinality(ids);
  }

  method AnyPlain(group: seq<Atom>, chosen: seq<Package>) returns (r: Result<bool>)
    ensures r == PlainScan(group, chosen)
  {
    for i := 0 to |group|
      invariant PlainScan(group, chosen) == PlainScan(group[i..], chosen)
    {
      r := AnyProvider(chosen, group[i]);
      if r != Ok(false) { return; }
    }
    return Ok(false);
  }

  method AnyOther(chosen: seq<Package>, id: string, atom: Atom) returns (r: Result<bool>)
    ensures r == ScanOthers(chosen, id, atom)
  {
    for i := 0 to |chosen|
      invariant ScanOthers(chosen, id, atom) == ScanOthers(chosen[i..], id, atom)
    {
      if chosen[i].id != id {
        r := MatchProvider(chosen[i], atom);
        if r != Ok(false) { return; }
      }
    }
    return Ok(false);
  }

  method RequireSatisfied(field: Result<Groups>, chosen: seq<Package>) returns (r: Result<()>)
    ensures r.Ok? <==> GroupsSatisfied(field, chosen)
  {
    hide PlainScan;
    var groups :- field;
    for i := 0 to |groups|
      invariant forall k :: 0 <= k < i ==> PlainScan(groups[k], chosen) == Ok(true)
    {
      var found := AnyPlain(groups[i], chosen);
      assert groups[i] in groups;
      if found.Invalid? { return Invalid(found.reason); }
      if !found.value { return Invalid("unsatisfied"); }
    }
    return Ok(());
  }

  method RequireNoneExcluded(field: Result<Groups>, id: string, chosen: seq<Package>) returns (r: Result<()>)
    requires SingleAtoms(field)
    ensures r.Ok? <==> NoneExcluded(field, id, chosen)
  {
    hide ScanOthers;
    var groups :- field;
    for i := 0 to |groups|
      invariant forall k :: 0 <= k < i ==> ScanOthers(chosen, id, groups[k][0]) == Ok(false)
    {
      assert groups[i] in groups;
      var found := AnyOther(chosen, id, groups[i][0]);
      if found.Invalid? { return Invalid(found.reason); }
      if found.value { return Invalid("conflict"); }
    }
    return Ok(());
  }

  method CheckPackage(p: Package, chosen: seq<Package>) returns (r: Result<()>)
    requires Parsed(p)
    ensures r.Ok? <==> PackageAccepted(p, chosen)
  {
    if !QualifiedArchitecture(p) { return Invalid("unqualified architecture"); }
    var _ :- SplitVersion(p.version);
    r := RequireSatisfied(p.depends, chosen);
    if r.Invalid? { return; }
    r := RequireSatisfied(p.preDepends, chosen);
    if r.Invalid? { return; }
    r := RequireNoneExcluded(p.conflicts, p.id, chosen);
    if r.Invalid? { return; }
    r := RequireNoneExcluded(p.breaks, p.id, chosen);
  }

  method CheckEach(chosen: seq<Package>) returns (r: Result<()>)
    requires forall i :: 0 <= i < |chosen| ==> Parsed(chosen[i])
    ensures r.Ok? <==> EachAccepted(chosen, chosen)
  {
    assert chosen[0..] == chosen;
    for k := 0 to |chosen|
      invariant EachAccepted(chosen, chosen) <==> EachAccepted(chosen[k..], chosen)
    {
      r := CheckPackage(chosen[k], chosen);
      if r.Invalid? { return; }
    }
    return Ok(());
  }

  /** `check_final`: it returns the number of chosen packages exactly on a valid final set. */
  method CheckFinal(candidates: seq<Package>, selected: set<string>) returns (r: Result<nat>)
    requires forall p :: p in candidates ==> Parsed(p)
    ensures r.Ok? <==> FinalSetValid(candidates, selected)
    ensures r.Ok? ==> r.value == |Chosen(candidates, selected)| == |selected|
  {
    hide Chosen, IdentifiersKnown, NamesDistinct, EachAccepted, Parsed;
    ChosenAreCandidates(candidates, selected);
    if !IdentifiersKnown(candidates, selected) {
      return Invalid("unknown or duplicate candidate");
    }
    EverySelected(candidates, selected);
    var chosen := Chosen(candidates, selected);
    if !NamesDistinct(chosen) {
      return Invalid("same-name binary coinstallation is not qualified (including all/amd64)");
    }
    var checked := CheckEach(chosen);
    if checked.Invalid? { return Invalid(checked.reason); }
    return Ok(|chosen|);
  }

  lemma {:induction false} EachOf(packages: seq<Package>, chosen: seq<Package>)
    ensures EachAccepted(packages, chosen) <==> forall p :: p in packages ==> PackageAccepted(p, chosen)
  {
    hide PackageAccepted;
    if packages != [] {
      EachOf(packages[1..], chosen);
      assert packages == [packages[0]] + packages[1..];
    }
  }

  /** An accepted final set has every dependency satisfied and reports none missing. */
  lemma ValidSetMissesNothing(candidates: seq<Package>, selected: set<string>)
    requires FinalSetValid(candidates, selected)
    ensures DependenciesAccepted(Chosen(candidates, selected))
    ensures Empty(IndexedMissing(Chosen(candidates, selected)))
  {
    var chosen := Chosen(candidates, selected);
    EachOf(chosen, chosen);
    PhaseByOutcome(chosen);
  }

  // ----- What a valid final set is, without scans -----

  predicate Taken(candidates: seq<Package>, selected: set<string>, p: Package) {
    p in candidates && p.id in selected
  }

  ghost predicate Matches(p: Package, atom: Atom) {
    ProviderMatches(p, atom) == Ok(true)
  }

  /** Some taken package matches some alternative of every group. */
  ghost predicate AllMet(field: Result<Groups>, candidates: seq<Package>, selected: set<string>) {
    field.Ok? && forall g :: g in field.value ==>
                   exists a, q :: a in g && Taken(candidates, selected, q) && Matches(q, a)
  }

  /** No taken package but the owner matches any group. */
  ghost predicate NoneHit(field: Result<Groups>, owner: Package, candidates: seq<Package>, selected: set<string>) {
    field.Ok? && forall g :: g in field.value ==>
                   |g| == 1 && forall q :: Taken(candidates, selected, q) && q.id != owner.id ==> !Matches(q, g[0])
  }

  ghost predicate Fits(p: Package, candidates: seq<Package>, selected: set<string>) {
    && (p.architecture == "amd64" || p.architecture == "all") && ValidVersion(p.version)
    && AllMet(p.depends, candidates, selected) && AllMet(p.preDepends, candidates, selected)
    && NoneHit(p.conflicts, p, candidates, selected) && NoneHit(p.breaks, p, candidates, selected)
  }

  /** Known and distinct identities, one package to a name, and every taken package fits the others. */
  ghost predicate Consistent(candidates: seq<Package>, selected: set<string>) {
    && IdentifiersKnown(candidates, selected)
    && (forall p, q :: Taken(candidates, selected, p) && Taken(candidates, selected, q) && p.name == q.name ==> p == q)
    && forall p :: Taken(candidates, selected, p) ==> Fits(p, candidates, selected)
  }

  /** No taken package raises on an atom of any group that a scan would try. */
  ghost predicate NothingRaises(field: Result<Groups>, candidates: seq<Package>, selected: set<string>) {
    field.Ok? ==> forall g, a, q :: g in field.value && a in g && Taken(candidates, selected, q) ==>
                    ProviderMatches(q, a).Ok?
  }

  ghost predicate AllAnswer(candidates: seq<Package>, selected: set<string>) {
    forall p :: Taken(candidates, selected, p) ==>
      && NothingRaises(p.depends, candidates, selected) && NothingRaises(p.preDepends, candidates, selected)
      && NothingRaises(p.conflicts, candidates, selected) && NothingRaises(p.breaks, candidates, selected)
  }

  lemma {:induction false} ScanFinds(list: seq<Package>, atom: Atom)
    requires ScanProviders(list, atom) == Ok(true)
    ensures exists p :: p in list && Matches(p, atom)
  {
    hide ProviderMatches;
    if ProviderMatches(list[0], atom) == Ok(false) {
      ScanFinds(list[1..], atom);
    } else {
      assert list[0] in list && Matches(list[0], atom);
    }
  }

  lemma {:induction false} PlainFinds(group: seq<Atom>, list: seq<Package>)
    requires PlainScan(group, list) == Ok(true)
    ensures exists a, p :: a in group && p in list && Matches(p, a)
  {
    hide ScanProviders, Matches;
    if ScanProviders(list, group[0]) == Ok(false) {
      PlainFinds(group[1..], list);
    } else {
      ScanFinds(list, group[0]);
      assert group[0] in group;
    }
  }

  /** A scan of the others that comes out false has tried, and missed with, every one of them. */
  lemma {:induction false} OthersMiss(list: seq<Package>, id: string, atom: Atom)
    ensures ScanOthers(list, id, atom) == Ok(false) <==>
            forall p :: p in list && p.id != id ==> ProviderMatches(p, atom) == Ok(false)
  {
    hide ProviderMatches;
    if list != [] {
      OthersMiss(list[1..], id, atom);
      assert forall p :: p in list <==> p == list[0] || p in list[1..];
    }
  }

  lemma SatisfiedIsMet(field: Result<Groups>, candidates: seq<Package>, selected: set<string>)
    ensures GroupsSatisfied(field, Chosen(candidates, selected)) ==> AllMet(field, candidates, selected)
    ensures NothingRaises(field, candidates, selected) && AllMet(field, candidates, selected) ==>
              GroupsSatisfied(field, Chosen(candidates, selected))
  {
    hide PlainScan, ProviderMatches, Chosen;
    var chosen := Chosen(candidates, selected);
    ChosenAreCandidates(candidates, selected);
    if GroupsSatisfied(field, chosen) {
      forall g | g in field.value
        ensures exists a, q :: a in g && Taken(candidates, selected, q) && Matches(q, a)
      {
        PlainFinds(g, chosen);
        var a, q :| a in g && q in chosen && Matches(q, a);
        assert Taken(candidates, selected, q);
      }
    }
    if NothingRaises(field, candidates, selected) && AllMet(field, candidates, selected) {
      forall g | g in field.value
        ensures PlainScan(g, chosen) == Ok(true)
      {
        assert forall p :: p in chosen ==> Taken(candidates, selected, p);
        PlainScanMeaning(g, chosen);
        var a, q :| a in g && Taken(candidates, selected, q) && Matches(q, a);
        assert q in chosen && ProviderMatches(q, a) == Ok(true);
      }
    }
  }

  lemma MissIsFalse(r: Result<bool>)
    requires r.Ok? && r != Ok(true)
    ensures r == Ok(false)
  {
    assert r.value ==> r == Ok(true);
  }

  lemma ExcludedIsHit(field: Result<Groups>, p: Package, candidates: seq<Package>, selected: set<string>)
    ensures NoneExcluded(field, p.id, Chosen(candidates, selected)) ==> NoneHit(field, p, candidates, selected)
    ensures NothingRaises(field, candidates, selected) && NoneHit(field, p, candidates, selected) ==>
              NoneExcluded(field, p.id, Chosen(candidates, selected))
  {
    hide ScanOthers, ProviderMatches, Chosen;
    var chosen := Chosen(candidates, selected);
    ChosenAreCandidates(candidates, selected);
    assert forall q :: q in chosen <==> Taken(candidates, selected, q);
    if NoneExcluded(field, p.id, chosen) {
      forall g | g in field.value
        ensures forall q :: Taken(candidates, selected, q) && q.id != p.id ==> !Matches(q, g[0])
      {
        OthersMiss(chosen, p.id, g[0]);
      }
    }
    if NothingRaises(field, candidates, selected) && NoneHit(field, p, candidates, selected) {
      forall g | g in field.value
        ensures ScanOthers(chosen, p.id, g[0]) == Ok(false)
      {
        OthersMiss(chosen, p.id, g[0]);
        forall q | q in chosen && q.id != p.id
          ensures ProviderMatches(q, g[0]) == Ok(false)
        {
          var r := ProviderMatches(q, g[0]);
          assert g[0] in g && r.Ok? && !Matches(q, g[0]);
          MissIsFalse(r);
        }
      }
    }
  }

  lemma AcceptedFits(p: Package, candidates: seq<Package>, selected: set<string>)
    ensures PackageAccepted(p, Chosen(candidates, selected)) ==> Fits(p, candidates, selected)
    ensures (&& NothingRaises(p.depends, candidates, selected) && NothingRaises(p.preDepends, candidates, selected)
             && NothingRaises(p.conflicts, candidates, selected) && NothingRaises(p.breaks, candidates, selected)
             && Fits(p, candidates, selected)) ==>
              PackageAccepted(p, Chosen(candidates, selected))
  {
    hide GroupsSatisfied, NoneExcluded, AllMet, NoneHit, NothingRaises, ValidVersion, Chosen;
    SatisfiedIsMet(p.depends, candidates, selected);
    SatisfiedIsMet(p.preDepends, candidates, selected);
    ExcludedIsHit(p.conflicts, p, candidates, selected);
    ExcludedIsHit(p.breaks, p, candidates, selected);
  }

  lemma NamesOnce(candidates: seq<Package>, selected: set<string>)
    requires IdentifiersKnown(candidates, selected)
    ensures NamesDistinct(Chosen(candidates, selected)) <==>
            forall p, q ::
              Taken(candidates, selected, p) && Taken(candidates, selected, q) && p.name == q.name ==> p == q
  {
    hide Chosen;
    var chosen := Chosen(candidates, selected);
    ChosenOnce(candidates, selected);
    ChosenAreCandidates(candidates, selected);
    assert forall p :: p in chosen <==> Taken(candidates, selected, p);
    if forall p, q :: p in chosen && q in chosen && p.name == q.name ==> p == q {
      forall i, j | 0 <= i < j < |chosen|
        ensures chosen[i].name != chosen[j].name
      {
        assert chosen[i] in chosen && chosen[j] in chosen && chosen[i].id != chosen[j].id;
      }
    }
  }

  /**
   An accepted final set is consistent; and where no scan meets a package it cannot judge, a
   consistent set is accepted.
   */
  lemma FinalSetMeaning(candidates: seq<Package>, selected: set<string>)
    ensures FinalSetValid(candidates, selected) ==> Consistent(candidates, selected)
    ensures AllAnswer(candidates, selected) && Consistent(candidates, selected) ==> FinalSetValid(candidates, selected)
  {
    hide PackageAccepted, Fits, NothingRaises, Chosen, NamesDistinct;
    var chosen := Chosen(candidates, selected);
    EachOf(chosen, chosen);
    ChosenAreCandidates(candidates, selected);
    assert forall p :: p in chosen <==> Taken(candidates, selected, p);
    forall p { AcceptedFits(p, candidates, selected); }
    if IdentifiersKnown(candidates, selected) { NamesOnce(candidates, selected); }
  }

  // ----- Empty report against accepted dependencies -----

  predicate Empty(r: Result<seq<MissingRow>>) {
    r.Ok? && |r.value| == 0
  }

  lemma {:induction false} EmptyGroups(p: Package, field: Field, groups: Groups, scan: GroupScan)
    ensures Empty(MissingGroups(p, field, groups, scan)) <==> forall g :: g in groups ==> scan(g) == Ok(true)
  {
    if groups != [] {
      var front, g := groups[..|groups| - 1], groups[|groups| - 1];
      EmptyGroups(p, field, front, scan);
      assert groups == front + [g];
      assert forall h :: h in groups <==> h == g || h in front;
    }
  }

  ghost predicate FieldEmpty(p: Package, field: Field, scan: GroupScan) {
    FieldOf(p, field).Ok? && forall g :: g in FieldOf(p, field).value ==> scan(g) == Ok(true)
  }

  lemma EmptyField(p: Package, field: Field, scan: GroupScan)
    ensures Empty(MissingInField(p, field, scan)) <==> FieldEmpty(p, field, scan)
  {
    if FieldOf(p, field).Ok? { EmptyGroups(p, field, FieldOf(p, field).value, scan); }
  }

  lemma {:induction false} EmptyReport(packages: seq<Package>, scan: GroupScan)
    ensures Empty(MissingOf(packages, scan)) <==>
            forall p :: p in packages ==> FieldEmpty(p, PreDepends, scan) && FieldEmpty(p, Depends, scan)
  {
    if packages != [] {
      var p := packages[|packages| - 1];
      var front := packages[..|packages| - 1];
      EmptyReport(front, scan);
      assert packages == front + [p];
      assert forall q :: q in packages <==> q == p || q in front;
      EmptyField(p, PreDepends, scan);
      EmptyField(p, Depends, scan);
    }
  }

  /** No plain scan of a dependency group meets an unqualified package before a match. */
  ghost predicate ScansAnswer(chosen: seq<Package>) {
    forall p, field, g :: p in chosen && FieldOf(p, field).Ok? && g in FieldOf(p, field).value ==>
      PlainScan(g, chosen).Ok?
  }

  /** The phase, told by the outcomes of its own scans. */
  lemma PhaseByOutcome(chosen: seq<Package>)
    ensures DependenciesAccepted(chosen) <==> Empty(IndexedMissing(chosen)) && ScansAnswer(chosen)
  {
    var scan := group => IndexedScan(group, chosen);
    EmptyReport(chosen, scan);
    forall g
      ensures PlainScan(g, chosen).Ok? ==> scan(g) == PlainScan(g, chosen)
    {
      IndexKeepsGroupScan(g, chosen);
    }
    if DependenciesAccepted(chosen) {
      forall p | p in chosen
        ensures FieldEmpty(p, PreDepends, scan) && FieldEmpty(p, Depends, scan)
      {
        assert GroupsSatisfied(p.depends, chosen) && GroupsSatisfied(p.preDepends, chosen);
      }
    } else if Empty(IndexedMissing(chosen)) && ScansAnswer(chosen) {
      forall p | p in chosen
        ensures GroupsSatisfied(p.depends, chosen) && GroupsSatisfied(p.preDepends, chosen)
      {
        assert FieldEmpty(p, PreDepends, scan) && FieldEmpty(p, Depends, scan);
        assert FieldOf(p, Depends).Ok? && FieldOf(p, PreDepends).Ok?;
      }
    }
  }

  /**
   Either every chosen package is qualified, or one that matches the group's first
   alternative comes before every package that is not: a test on the packages alone.
   */
  ghost predicate Sheltered(g: seq<Atom>, chosen: seq<Package>) {
    (forall p :: p in chosen ==> Qualified(p)) || (g != [] && exists k :: MatchesFirst(g[0], chosen, k))
  }

  ghost predicate MatchesFirst(atom: Atom, chosen: seq<Package>, k: int) {
    0 <= k < |chosen| && ProviderMatches(chosen[k], atom) == Ok(true)
    && forall j :: 0 <= j < k ==> Qualified(chosen[j])
  }

  ghost predicate AllSheltered(chosen: seq<Package>) {
    forall p, field, g :: p in chosen && FieldOf(p, field).Ok? && g in FieldOf(p, field).value ==> Sheltered(g, chosen)
  }

  lemma {:induction false} ScanPrefix(list: seq<Package>, n: nat, atom: Atom)
    requires n <= |list| && ScanProviders(list[..n], atom) != Ok(false)
    ensures ScanProviders(list, atom) == ScanProviders(list[..n], atom)
  {
    if n > 0 {
      assert list[..n][0] == list[0] && list[..n][1..] == list[1..][..n - 1];
      if ProviderMatches(list[0], atom) == Ok(false) {
        ScanPrefix(list[1..], n - 1, atom);
      }
    }
  }

  lemma {:induction false} ByNamePrefix(list: seq<Package>, n: nat, name: string)
    requires n <= |list|
    ensures ByName(list[..n], name) <= ByName(list, name)
    decreases |list| - n
  {
    if n < |list| {
      ByNamePrefix(list[..|list| - 1], n, name);
      assert list[..|list| - 1][..n] == list[..n];
    } else {
      assert list[..n] == list;
    }
  }

  lemma {:induction false} ScanFindsSomething(list: seq<Package>, k: nat, atom: Atom)
    requires k < |list| && ProviderMatches(list[k], atom) == Ok(true)
    ensures ScanProviders(list, atom) != Ok(false)
  {
    if k > 0 {
      ScanFindsSomething(list[1..], k - 1, atom);
    }
  }

  /** Before the first unqualified package, the index and the plain scan see the same match. */
  lemma ShelteredScan(atom: Atom, chosen: seq<Package>, k: nat)
    requires MatchesFirst(atom, chosen, k)
    ensures ScanProviders(chosen, atom) == ScanProviders(ByName(chosen, atom.name), atom) != Ok(false)
  {
    hide ProviderMatches;
    var seen := chosen[..k + 1];
    MatchIsQualified(chosen[k], atom);
    assert seen[k] == chosen[k];
    ScanFindsSomething(seen, k, atom);
    FilterKeepsScan(seen, atom);
    ScanPrefix(chosen, k + 1, atom);
    ByNamePrefix(chosen, k + 1, atom.name);
    var named := ByName(seen, atom.name);
    assert ByName(chosen, atom.name)[..|named|] == named;
    ScanPrefix(ByName(chosen, atom.name), |named|, atom);
  }

  lemma MatchIsQualified(p: Package, atom: Atom)
    requires ProviderMatches(p, atom).Ok?
    ensures Qualified(p)
  {
  }

  /** A scan that answers either found its match first, or saw every package. */
  lemma {:induction false} ScanAnswers(list: seq<Package>, atom: Atom) returns (k: nat)
    requires ScanProviders(list, atom).Ok?
    ensures ScanProviders(list, atom) == Ok(true) ==> MatchesFirst(atom, list, k)
    ensures ScanProviders(list, atom) == Ok(false) ==> forall p :: p in list ==> ProviderMatches(p, atom) == Ok(false)
  {
    hide ProviderMatches;
    k := 0;
    if list != [] {
      MatchIsQualified(list[0], atom);
      if ProviderMatches(list[0], atom) == Ok(false) {
        var m := ScanAnswers(list[1..], atom);
        k := m + 1;
        assert list == [list[0]] + list[1..];
      }
    }
  }

  /** When the index satisfies a group, the plain scan does exactly on that condition. */
  lemma GroupSheltered(g: seq<Atom>, chosen: seq<Package>)
    requires IndexedScan(g, chosen) == Ok(true)
    ensures PlainScan(g, chosen) == Ok(true) <==> Sheltered(g, chosen)
  {
    hide ProviderMatches, Qualified, ScanProviders;
    if forall p :: p in chosen ==> Qualified(p) {
      IndexKeepsGroupScan(g, chosen);
    } else if k :| MatchesFirst(g[0], chosen, k) {
      ShelteredScan(g[0], chosen, k);
    }
    if PlainScan(g, chosen) == Ok(true) {
      var k := ScanAnswers(chosen, g[0]);
      if ScanProviders(chosen, g[0]) == Ok(false) {
        forall p | p in chosen
          ensures Qualified(p)
        {
          MatchIsQualified(p, g[0]);
        }
      }
    }
  }

  /**
   The dependency phase accepts exactly when the indexed report is empty and every group
   is sheltered from the packages that the index never looks at.
   */
  lemma DependencyPhaseAgrees(chosen: seq<Package>)
    ensures DependenciesAccepted(chosen) <==> Empty(IndexedMissing(chosen)) && AllSheltered(chosen)
  {
    hide ProviderMatches, ScanProviders, Sheltered, IndexedScan, PlainScan, Qualified;
    PhaseByOutcome(chosen);
    if Empty(IndexedMissing(chosen)) {
      EmptyReport(chosen, group => IndexedScan(group, chosen));
      forall p, field, g | p in chosen && FieldOf(p, field).Ok? && g in FieldOf(p, field).value
        ensures PlainScan(g, chosen).Ok? <==> Sheltered(g, chosen)
      {
        assert FieldEmpty(p, field, group => IndexedScan(group, chosen));
        GroupSheltered(g, chosen);
        IndexKeepsGroupScan(g, chosen);
      }
    }
  }

  /** So the report is empty exactly when the phase accepts, on just these sets. */
  lemma EmptyMeansAcceptedExactly(chosen: seq<Package>)
    ensures (DependenciesAccepted(chosen) <==> Empty(IndexedMissing(chosen)))
       <==> (Empty(IndexedMissing(chosen)) ==> AllSheltered(chosen))
  {
    hide AllSheltered, Empty, DependenciesAccepted;
    DependencyPhaseAgrees(chosen);
  }

  // ----- What the report lists -----

  /** No selected package matches any alternative. */
  ghost predicate Unmatched(g: seq<Atom>, selected: seq<Package>) {
    forall a, q :: a in g && q in selected ==> ProviderMatches(q, a) != Ok(true)
  }

  lemma {:induction false} AnswerMeaning(g: seq<Atom>, selected: seq<Package>)
    requires PlainScan(g, selected).Ok?
    ensures !PlainScan(g, selected).value <==> Unmatched(g, selected)
  {
    hide ProviderMatches, ScanProviders;
    if g != [] {
      var k := ScanAnswers(selected, g[0]);
      if ScanProviders(selected, g[0]) == Ok(false) {
        AnswerMeaning(g[1..], selected);
        assert forall a :: a in g <==> a == g[0] || a in g[1..];
      } else {
        assert ScanProviders(selected, g[0]).value;
        assert MatchesFirst(g[0], selected, k);
        assert g[0] in g && selected[k] in selected;
      }
    }
  }

  ghost predicate Reports(row: MissingRow, p: Package, field: Field, g: seq<Atom>, scan: GroupScan) {
    FieldOf(p, field).Ok? && g in FieldOf(p, field).value
    && scan(g) == Ok(false) && row == MissingRow(p.name, field, g)
  }

  lemma {:induction false} GroupRows(p: Package, field: Field, groups: Groups, scan: GroupScan, row: MissingRow)
    requires MissingGroups(p, field, groups, scan).Ok?
    ensures row in MissingGroups(p, field, groups, scan).value
       <==> exists g :: g in groups && scan(g) == Ok(false) && row == MissingRow(p.name, field, g)
    ensures forall g :: g in groups ==> scan(g).Ok?
  {
    if groups != [] {
      var n := |groups| - 1;
      GroupRows(p, field, groups[..n], scan, row);
      assert forall g :: g in groups <==> g in groups[..n] || g == groups[n];
    }
  }

  lemma {:induction false} ReportRows(packages: seq<Package>, scan: GroupScan, row: MissingRow)
    requires MissingOf(packages, scan).Ok?
    ensures row in MissingOf(packages, scan).value
       <==> exists p, field, g :: p in packages && Reports(row, p, field, g, scan)
    ensures forall p, field :: p in packages ==> MissingInField(p, field, scan).Ok?
  {
    hide MissingGroups;
    if packages != [] {
      var n := |packages| - 1;
      var p := packages[n];
      ReportRows(packages[..n], scan, row);
      assert forall q :: q in packages <==> q in packages[..n] || q == p;
      GroupRows(p, PreDepends, p.preDepends.value, scan, row);
      GroupRows(p, Depends, p.depends.value, scan, row);
      OwnRows(p, scan, row);
    }
  }

  lemma OwnRows(p: Package, scan: GroupScan, row: MissingRow)
    requires p.preDepends.Ok? && p.depends.Ok?
    ensures (exists field, g :: Reports(row, p, field, g, scan))
       <==> (exists g :: g in p.preDepends.value && scan(g) == Ok(false) && row == MissingRow(p.name, PreDepends, g))
            || (exists g :: g in p.depends.value && scan(g) == Ok(false) && row == MissingRow(p.name, Depends, g))
  {
    if g :| g in p.preDepends.value && scan(g) == Ok(false) && row == MissingRow(p.name, PreDepends, g) {
      assert Reports(row, p, PreDepends, g, scan);
    }
    if g :| g in p.depends.value && scan(g) == Ok(false) && row == MissingRow(p.name, Depends, g) {
      assert Reports(row, p, Depends, g, scan);
    }
  }

  /** The rows of one field, all of that package and field. */
  lemma {:induction false} RowsOfField(p: Package, field: Field, groups: Groups, scan: GroupScan)
    requires MissingGroups(p, field, groups, scan).Ok?
    ensures forall r :: r in MissingGroups(p, field, groups, scan).value ==> r.package == p.name && r.field == field
  {
    if groups != [] { RowsOfField(p, field, groups[..|groups| - 1], scan); }
  }

  ghost predicate AllNamed(rows: seq<MissingRow>, packages: seq<Package>) {
    forall i :: 0 <= i < |rows| ==> exists k :: 0 <= k < |packages| && packages[k].name == rows[i].package
  }

  /** Rows of earlier packages first, and of one package those of the first field. */
  ghost predicate InSequence(rows: seq<MissingRow>, packages: seq<Package>) {
    forall i, j, a, b :: 0 <= i < j < |rows| && 0 <= a < |packages| && 0 <= b < |packages|
                         && packages[a].name == rows[i].package && packages[b].name == rows[j].package ==>
      a < b || (a == b && (rows[i].field == PreDepends || rows[j].field == Depends))
  }

  ghost predicate InReportOrder(rows: seq<MissingRow>, packages: seq<Package>) {
    AllNamed(rows, packages) && InSequence(rows, packages)
  }

  /** The rows that one more package adds. */
  ghost predicate RowsFor(p: Package, pre: seq<MissingRow>, deps: seq<MissingRow>) {
    && (forall i :: 0 <= i < |pre| ==> pre[i].package == p.name && pre[i].field == PreDepends)
    && (forall i :: 0 <= i < |deps| ==> deps[i].package == p.name && deps[i].field == Depends)
  }

  lemma NamedMore(rows: seq<MissingRow>, pre: seq<MissingRow>, deps: seq<MissingRow>, packages: seq<Package>)
    requires packages != [] && AllNamed(rows, packages[..|packages| - 1])
    requires RowsFor(packages[|packages| - 1], pre, deps)
    ensures AllNamed(rows + (pre + deps), packages)
  {
    var n, all := |packages| - 1, rows + (pre + deps);
    forall i | 0 <= i < |all|
      ensures exists k :: 0 <= k < |packages| && packages[k].name == all[i].package
    {
      if i < |rows| {
        var k :| 0 <= k < n && packages[..n][k].name == rows[i].package;
        assert packages[k].name == all[i].package;
      } else {
        assert packages[n].name == all[i].package;
      }
    }
  }

  lemma EarlierNames(rows: seq<MissingRow>, packages: seq<Package>, i: nat, a: nat)
    requires packages != [] && NamesDistinct(packages) && AllNamed(rows, packages[..|packages| - 1])
    requires i < |rows| && a < |packages| && packages[a].name == rows[i].package
    ensures a < |packages| - 1
  {
    var n := |packages| - 1;
    var k :| 0 <= k < n && packages[..n][k].name == rows[i].package;
    assert packages[k].name == packages[a].name;
  }

  lemma SequenceMore(rows: seq<MissingRow>, pre: seq<MissingRow>, deps: seq<MissingRow>, packages: seq<Package>)
    requires packages != [] && NamesDistinct(packages) && InReportOrder(rows, packages[..|packages| - 1])
    requires RowsFor(packages[|packages| - 1], pre, deps)
    ensures InSequence(rows + (pre + deps), packages)
  {
    hide AllNamed;
    var n, all := |packages| - 1, rows + (pre + deps);
    forall i, j, a, b | 0 <= i < j < |all| && 0 <= a <= n && 0 <= b <= n
                        && packages[a].name == all[i].package && packages[b].name == all[j].package
      ensures a < b || (a == b && (all[i].field == PreDepends || all[j].field == Depends))
    {
      if i < |rows| { EarlierNames(rows, packages, i, a); }
      if j < |rows| {
        EarlierNames(rows, packages, j, b);
        assert packages[..n][a].name == rows[i].package && packages[..n][b].name == rows[j].package;
      } else {
        assert all[j].package == packages[n].name;
      }
    }
  }

  lemma {:induction false} RowsInOrder(packages: seq<Package>, scan: GroupScan)
    requires NamesDistinct(packages) && MissingOf(packages, scan).Ok?
    ensures InReportOrder(MissingOf(packages, scan).value, packages)
  {
    hide InReportOrder, AllNamed, InSequence, MissingGroups;
    if packages == [] {
      NoRows();
    } else {
      var n := |packages| - 1;
      var p := packages[n];
      RowsInOrder(packages[..n], scan);
      RowsOfField(p, PreDepends, p.preDepends.value, scan);
      RowsOfField(p, Depends, p.depends.value, scan);
      var rows := MissingOf(packages[..n], scan).value;
      var pre, deps := MissingInField(p, PreDepends, scan).value, MissingInField(p, Depends, scan).value;
      IsReportOrder(rows, packages[..n]);
      NamedMore(rows, pre, deps, packages);
      SequenceMore(rows, pre, deps, packages);
      IsReportOrder(rows + (pre + deps), packages);
    }
  }

  lemma IsReportOrder(rows: seq<MissingRow>, packages: seq<Package>)
    ensures InReportOrder(rows, packages) <==> AllNamed(rows, packages) && InSequence(rows, packages)
  {
  }

  lemma NoRows()
    ensures InReportOrder([], [])
  {
  }

  /** A report comes in the order of the packages, and for each package first its pre-dependencies. */
  lemma ReportInOrder(selected: seq<Package>)
    requires NamesDistinct(selected) && IndexedMissing(selected).Ok?
    ensures InReportOrder(IndexedMissing(selected).value, selected)
  {
    hide InReportOrder;
    RowsInOrder(selected, group => IndexedScan(group, selected));
  }

  ghost predicate Lists(row: MissingRow, p: Package, field: Field, g: seq<Atom>, selected: seq<Package>) {
    FieldOf(p, field).Ok? && g in FieldOf(p, field).value
    && Unmatched(g, selected) && row == MissingRow(p.name, field, g)
  }

  /** The report lists exactly the groups of the two fields that no selected package satisfies. */
  lemma ReportListsUnmatched(selected: seq<Package>, row: MissingRow)
    requires (forall q :: q in selected ==> Qualified(q)) && IndexedMissing(selected).Ok?
    ensures row in IndexedMissing(selected).value
       <==> exists p, field, g :: p in selected && Lists(row, p, field, g, selected)
  {
    hide PlainScan, Unmatched, Qualified, MissingOf;
    IndexAgreesWithPlainScan(selected);
    var scan := group => PlainScan(group, selected);
    ReportRows(selected, scan, row);
    forall p, field, g | p in selected && FieldOf(p, field).Ok? && g in FieldOf(p, field).value
      ensures scan(g) == Ok(false) <==> Unmatched(g, selected)
    {
      assert MissingInField(p, field, scan).Ok?;
      GroupRows(p, field, FieldOf(p, field).value, scan, row);
      AnswerMeaning(g, selected);
    }
    if p, field, g :| p in selected && Reports(row, p, field, g, scan) {
      assert Lists(row, p, field, g, selected);
    }
    if p, field, g :| p in selected && Lists(row, p, field, g, selected) {
      assert Reports(row, p, field, g, scan);
    }
  }

  /** On qualified packages there is no side condition. */
  lemma EmptyExactlyWhenAccepted(chosen: seq<Package>)
    requires forall q :: q in chosen ==> Qualified(q)
    ensures DependenciesAccepted(chosen) <==> Empty(IndexedMissing(chosen))
  {
    PhaseByOutcome(chosen);
    if Empty(IndexedMissing(chosen)) {
      EmptyReport(chosen, group => IndexedScan(group, chosen));
      forall p, field, g | p in chosen && FieldOf(p, field).Ok? && g in FieldOf(p, field).value
        ensures PlainScan(g, chosen).Ok?
      {
        IndexKeepsGroupScan(g, chosen);
        assert FieldEmpty(p, field, group => IndexedScan(group, chosen));
      }
    }
  }

  function Bare(name: string, multiArch: string, depends: Groups): Package {
    Package(name, name, "1", "amd64", multiArch, [], Ok(depends), Ok([]), Ok([]), Ok([]))
  }

  /** Without that condition the two differ: an unknown Multi-Arch mode on an unrelated
      package raises in the plain scan and is never looked at by the index. */
  lemma UnqualifiedBystander()
    ensures var odd, lib := Bare("odd", "maybe", []), Bare("lib", "no", []);
            var app := Bare("app", "no", [[Atom("lib", Unqualified, NoOperator, "")]]);
            && Empty(IndexedMissing([odd, lib, app]))
            && !DependenciesAccepted([odd, lib, app])
  {
    hide IndexedScan, PlainScan, Empty;
    var odd, lib := Bare("odd", "maybe", []), Bare("lib", "no", []);
    var need := Atom("lib", Unqualified, NoOperator, "");
    var app := Bare("app", "no", [[need]]);
    var all := [odd, lib, app];
    OnlyLibIsIndexed();
    EmptyReport(all, group => IndexedScan(group, all));
    OddRaises();
    assert app in all && !GroupsSatisfied(app.depends, all) by {
      assert [need] in app.depends.value;
    }
  }

  lemma OnlyLibIsIndexed()
    ensures var odd, lib := Bare("odd", "maybe", []), Bare("lib", "no", []);
            var need := Atom("lib", Unqualified, NoOperator, "");
            IndexedScan([need], [odd, lib, Bare("app", "no", [[need]])]) == Ok(true)
  {
    var odd, lib := Bare("odd", "maybe", []), Bare("lib", "no", []);
    var need := Atom("lib", Unqualified, NoOperator, "");
    var app := Bare("app", "no", [[need]]);
    var all := [odd, lib, app];
    assert ProviderMatches(lib, need) == Ok(true);
    assert all[..2] == [odd, lib] && [odd, lib][..1] == [odd] && [odd][..0] == [];
    assert !Capable(odd, "lib") && Capable(lib, "lib") && !Capable(app, "lib");
    assert ByName([odd], "lib") == [];
    assert ByName([odd, lib], "lib") == [lib];
    assert ByName(all, "lib") == [lib];
    assert ScanProviders([lib], need) == Ok(true);
  }

  lemma OddRaises()
    ensures var odd, lib := Bare("odd", "maybe", []), Bare("lib", "no", []);
            var need := Atom("lib", Unqualified, NoOperator, "");
            PlainScan([need], [odd, lib, Bare("app", "no", [[need]])]).Invalid?
  {
  }
}
