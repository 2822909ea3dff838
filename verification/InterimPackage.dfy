/**
 The interim package codec of native/interim_package.py: a manifest and the
 original artifacts it names, in one canonical byte string.
 */
module InterimPackage {
  import opened NiaCommon
  import opened Ordering
  import opened Bytes
  import opened DebianVersion

  const MAGIC: Data := [78, 73, 65, 45, 73, 78, 84, 69, 82, 73, 77, 0, 1]
  const MAX_MANIFEST := 256 * 1024
  const MAX_ARTIFACT := 128 * 1024 * 1024
  const MAX_PAYLOAD := 256 * 1024 * 1024
  const MAX_REPLACEMENTS := 64
  const MAX_PACKAGE := |MAGIC| + 4 + MAX_MANIFEST + MAX_PAYLOAD + MAX_REPLACEMENTS * 2 * 40

  /** A SHA-256 value; its hexadecimal text sorts as its bytes do. */
  type Sha = Data

  predicate IsSha(d: Sha) {
    |d| == 32 && !AllZero(d)
  }

  predicate ShaLess(a: Sha, b: Sha) {
    Lex(a, b) < 0
  }

  lemma ShaOrder()
    ensures StrictOrder(ShaLess)
  {
    forall x: Sha ensures !ShaLess(x, x) { LexEqual(x, x); }
    forall x: Sha, y: Sha | x != y
      ensures ShaLess(x, y) || ShaLess(y, x)
    {
      LexAntisymmetric(x, y);
      LexEqual(x, y);
    }
    forall x: Sha, y: Sha, z: Sha | ShaLess(x, y) && ShaLess(y, z)
      ensures ShaLess(x, z)
    {
      LexTransitive(x, y, z);
    }
  }

  datatype Identity = Identity(package: string, version: string, architecture: string)
  datatype Image = Image(identity: Identity, artifact: Sha, source: Sha)
  datatype Replacement = Replacement(base: Image, target: Image, effect: Sha, activation: string)

  /** A manifest; `scalars` holds the fields checked one by one on their own. */
  datatype Manifest<Scalars> = Manifest(
    scalars: Scalars, advisories: seq<string>, required: seq<Sha>, conflicts: seq<Sha>, supersedes: seq<Sha>,
    rollback: Sha, replacements: seq<Replacement>)

  type Artifacts = map<Sha, Data>

  /** The libraries the codec calls: JSON text, hashing, DEB inspection, scalar checks. */
  datatype Library<!Scalars> = Library(
    canonical: Manifest<Scalars> -> Data, parse: Data -> Result<Manifest<Scalars>>,
    sha: Data -> Sha, inspect: Data -> Result<Identity>, scalarsValid: Scalars -> bool)

  /** The assumption on JSON: parsing inverts the canonical text, which is never empty. */
  ghost predicate Faithful<Scalars(!new)>(lib: Library<Scalars>) {
    forall m :: lib.parse(lib.canonical(m)) == Ok(m) && 1 <= |lib.canonical(m)|
  }

  // ----- The manifest -----

  predicate PackageName(s: string) {
    && |s| >= 2 && ('a' <= s[0] <= 'z' || IsDigit(s[0]))
    && forall i :: 0 <= i < |s| ==> 'a' <= s[i] <= 'z' || IsDigit(s[i]) || s[i] in "+.-"
  }

  const MAX_ADVISORY := 96

  predicate CveIdentifier(s: string) {
    && |s| >= 13 && s[..4] == "CVE-" && AllDigits(s[4..8])
    && s[8] == '-' && AllDigits(s[9..])
  }

  predicate DsaIdentifier(s: string) {
    && |s| >= 4 && s[..4] == "DSA-"
    && exists k :: 4 < k < |s| - 1 && s[k] == '-' && AllDigits(s[4..k]) && AllDigits(s[k + 1..])
  }

  predicate NiaIdentifier(s: string) {
    && |s| >= 5 && s[..4] == "NIA-"
    && forall i :: 4 <= i < |s| ==> IsLetter(s[i]) || IsDigit(s[i]) || s[i] in "_.-"
  }

  /** An advisory identifier: one of the three published forms, within the length limit. */
  predicate Advisory(s: string) {
    |s| <= MAX_ADVISORY && (CveIdentifier(s) || DsaIdentifier(s) || NiaIdentifier(s))
  }

  predicate AllAdvisories(items: seq<string>) {
    forall i :: 0 <= i < |items| ==> Advisory(items[i])
  }

  predicate DigestList(items: seq<Sha>) {
    |items| <= 64 && (forall i :: 0 <= i < |items| ==> IsSha(items[i])) && Increasing(items, ShaLess)
  }

  predicate ImageValid(image: Image) {
    && PackageName(image.identity.package) && ValidVersion(image.identity.version)
    && image.identity.architecture in ["amd64", "all"]
    && IsSha(image.artifact) && IsSha(image.source)
  }

  predicate ReplacementValid(r: Replacement) {
    && IsSha(r.effect)
    && r.activation in ["new-process", "service-restart", "relogin", "node-reboot", "offline-migration"]
    && ImageValid(r.base) && ImageValid(r.target)
    && r.base.identity.package == r.target.identity.package
    && r.base.identity.architecture == r.target.identity.architecture
    && r.base.artifact != r.target.artifact
  }

  function NameOf(r: Replacement): (string, string) {
    (r.base.identity.package, r.base.identity.architecture)
  }

  function NamesOf(rs: seq<Replacement>): seq<(string, string)> {
    seq(|rs|, i requires 0 <= i < |rs| => NameOf(rs[i]))
  }

  /** The artifacts in manifest order: base and target of each replacement. */
  function ArtifactsOf(rs: seq<Replacement>): (a: seq<Sha>)
    ensures |a| == 2 * |rs|
  {
    if rs == [] then []
    else ArtifactsOf(rs[..|rs| - 1]) + [rs[|rs| - 1].base.artifact, rs[|rs| - 1].target.artifact]
  }

  /** Issues are named in order, and no required fix is conflicting or superseded. */
  ghost predicate ListsValid<Scalars>(m: Manifest<Scalars>) {
    && 1 <= |m.advisories| <= 64 && AllAdvisories(m.advisories) && Increasing(m.advisories, TextLess)
    && DigestList(m.required) && DigestList(m.conflicts) && DigestList(m.supersedes)
    && (forall d :: d in m.required ==> d !in m.conflicts && d !in m.supersedes)
  }

  ghost predicate ManifestValid<Scalars(!new)>(lib: Library<Scalars>, m: Manifest<Scalars>) {
    && lib.scalarsValid(m.scalars) && IsSha(m.rollback) && ListsValid(m)
    && 1 <= |m.replacements| <= MAX_REPLACEMENTS
    && AllValid(m.replacements, |m.replacements|)
    && Increasing(NamesOf(m.replacements), PairLess)
    && Distinct(ArtifactsOf(m.replacements))
    && |lib.canonical(m)| <= MAX_MANIFEST
  }

  /** `sorted(artifacts)`: the order of the payload. */
  ghost function Order<Scalars>(m: Manifest<Scalars>): (r: seq<Sha>)
    ensures Increasing(r, ShaLess) && Elements(r) == Elements(ArtifactsOf(m.replacements)) && |r| == |Elements(r)|
  {
    ShaOrder();
    Listing(Elements(ArtifactsOf(m.replacements)), ShaLess)
  }

  predicate AllValid(rs: seq<Replacement>, n: nat)
    requires n <= |rs|
  {
    forall i :: 0 <= i < n ==> ReplacementValid(rs[i])
  }

  /** The replacement loop, with its two accumulators. */
  method CheckReplacements(rs: seq<Replacement>)
    returns (ok: bool, names: seq<(string, string)>, artifacts: seq<Sha>)
    ensures ok <==> AllValid(rs, |rs|)
    ensures ok ==> names == NamesOf(rs) && artifacts == ArtifactsOf(rs)
  {
    hide ReplacementValid;
    names, artifacts := [], [];
    TakeAll(rs);
    for i := 0 to |rs|
      invariant AllValid(rs, i)
      invariant names == NamesOf(rs[..i]) && artifacts == ArtifactsOf(rs[..i])
    {
      if !ReplacementValid(rs[i]) { return false, [], []; }
      TakeOneMore(rs, i);
      artifacts := artifacts + [rs[i].base.artifact, rs[i].target.artifact];
      names := names + [NameOf(rs[i])];
    }
    return true, names, artifacts;
  }

  /** The four lists of a manifest. */
  method CheckLists<Scalars>(m: Manifest<Scalars>) returns (r: Result<()>)
    ensures r.Ok? <==> ListsValid(m)
  {
    hide DigestList, AllAdvisories;
    if !(1 <= |m.advisories| <= 64) { return Invalid("advisory count/type"); }
    if !AllAdvisories(m.advisories) { return Invalid("invalid advisory identifier"); }
    TextOrder();
    var sorted := StrictlySorted(m.advisories, TextLess);
    if !sorted { return Invalid("advisories must be sorted and unique"); }
    if !DigestList(m.required) || !DigestList(m.conflicts) || !DigestList(m.supersedes) {
      return Invalid("must be sorted and unique");
    }
    if exists d :: d in m.required && (d in m.conflicts || d in m.supersedes) {
      return Invalid("required fix is also conflicting or superseded");
    }
    return Ok(());
  }

  /** `check_manifest`: accepted manifests, and the payload order. */
  method CheckManifest<Scalars(!new)>(lib: Library<Scalars>, m: Manifest<Scalars>) returns (r: Result<seq<Sha>>)
    ensures r.Ok? <==> ManifestValid(lib, m)
    ensures r.Ok? ==> r.value == Order(m)
  {
    hide AllValid, ListsValid, IsSha;
    if !lib.scalarsValid(m.scalars) || !IsSha(m.rollback) { return Invalid("manifest fields"); }
    PairOrder();
    ShaOrder();
    var lists :- CheckLists(m);
    if !(1 <= |m.replacements| <= MAX_REPLACEMENTS) { return Invalid("replacement count/type"); }
    var ok, names, artifacts := CheckReplacements(m.replacements);
    if !ok { return Invalid("invalid replacement"); }
    var increasing := StrictlySorted(names, PairLess);
    if !increasing { return Invalid("replacements must be sorted and unique"); }
    var distinct, order := SortDistinct(artifacts);
    if !distinct { return Invalid("duplicate or ambiguously reused artifact"); }
    if |lib.canonical(m)| > MAX_MANIFEST { return Invalid("manifest size limit"); }
    return Ok(order);
  }

  /** `len(artifacts) != len(set(artifacts))`, and `sorted(artifacts)`. */
  method SortDistinct(artifacts: seq<Sha>) returns (distinct: bool, order: seq<Sha>)
    requires StrictOrder(ShaLess)
    ensures distinct <==> Distinct(artifacts)
    ensures order == Listing(Elements(artifacts), ShaLess)
  {
    var known := set a | a in artifacts;
    assert known == Elements(artifacts);
    DistinctExactly(artifacts);
    distinct := |artifacts| == |known|;
    order := Sorted(known, ShaLess);
  }

  // ----- The artifacts -----

  predicate ImageMatches<Scalars>(lib: Library<Scalars>, image: Image, artifacts: Artifacts) {
    && image.artifact in artifacts
    && 1 <= |artifacts[image.artifact]| <= MAX_ARTIFACT
    && lib.sha(artifacts[image.artifact]) == image.artifact
    && lib.inspect(artifacts[image.artifact]) == Ok(image.identity)
  }

  predicate DebsMatch<Scalars>(lib: Library<Scalars>, rs: seq<Replacement>, artifacts: Artifacts) {
    forall i :: 0 <= i < |rs| ==> ImageMatches(lib, rs[i].base, artifacts) && ImageMatches(lib, rs[i].target, artifacts)
  }

  function Content(artifacts: Artifacts, key: Sha): Data {
    if key in artifacts then artifacts[key] else []
  }

  function TotalSize(order: seq<Sha>, artifacts: Artifacts): nat {
    if order == [] then 0 else |Content(artifacts, order[0])| + TotalSize(order[1..], artifacts)
  }

  ghost predicate PackageValid<Scalars(!new)>(lib: Library<Scalars>, m: Manifest<Scalars>, artifacts: Artifacts) {
    && ManifestValid(lib, m)
    && artifacts.Keys == Elements(Order(m))
    && TotalSize(Order(m), artifacts) <= MAX_PAYLOAD
    && DebsMatch(lib, m.replacements, artifacts)
  }

  function Piece(key: Sha, data: Data): Data {
    key + Big(|data|, 8) + data
  }

  function Payload(order: seq<Sha>, artifacts: Artifacts): Data {
    if order == [] then [] else Piece(order[0], Content(artifacts, order[0])) + Payload(order[1..], artifacts)
  }

  function Head(header: Data): Data {
    MAGIC + Big(|header|, 4) + header
  }

  /** Where the parts of the head stand. */
  lemma HeadLayout(header: Data)
    requires |header| < Power256(4)
    ensures var b := Head(header);
            && |b| == 17 + |header|
            && b[..13] == ['N' as int, 'I' as int, 'A' as int, '-' as int, 'I' as int, 'N' as int, 'T' as int,
                           'E' as int, 'R' as int, 'I' as int, 'M' as int, 0, 1]
            && Number(b[13..17]) == |header| && b[17..] == header
  {
    hide Big, Number;
    NumberOfBig(|header|, 4);
    assert Head(header)[13..17] == Big(|header|, 4);
  }

  /** And of a piece: the digest, the size, the content. */
  lemma PieceLayout(key: Sha, data: Data)
    requires |key| == 32 && |data| < Power256(8)
    ensures var b := Piece(key, data);
            |b| == 40 + |data| && b[..32] == key && Number(b[32..40]) == |data| && b[40..] == data
  {
    hide Big, Number;
    NumberOfBig(|data|, 8);
    assert Piece(key, data)[32..40] == Big(|data|, 8);
  }

  /** The bytes of a package. */
  ghost function Encoding<Scalars(!new)>(lib: Library<Scalars>, m: Manifest<Scalars>, artifacts: Artifacts): Data {
    Head(lib.canonical(m)) + Payload(Order(m), artifacts)
  }

  /** `encode`: it succeeds exactly on valid packages. */
  method Encode<Scalars(!new)>(lib: Library<Scalars>, m: Manifest<Scalars>, artifacts: Artifacts)
    returns (r: Result<Data>)
    ensures r.Ok? <==> PackageValid(lib, m, artifacts)
    ensures r.Ok? ==> r.value == Encoding(lib, m, artifacts)
  {
    var order :- CheckManifest(lib, m);
    var keys := set k | k in order;
    assert keys == Elements(order);
    if artifacts.Keys != keys { return Invalid("artifact set differs from manifest"); }
    if TotalSize(order, artifacts) > MAX_PAYLOAD { return Invalid("aggregate payload limit"); }
    if !DebsMatch(lib, m.replacements, artifacts) { return Invalid("artifact size or digest mismatch"); }
    var pieces := WritePieces(Head(lib.canonical(m)), order, artifacts);
    return Ok(pieces);
  }

  /** The loop of `encode` over the payload order. */
  method WritePieces(head: Data, order: seq<Sha>, artifacts: Artifacts) returns (pieces: Data)
    ensures pieces == head + Payload(order, artifacts)
  {
    hide Piece, Content;
    pieces := head;
    assert order[0..] == order;
    for i := 0 to |order|
      invariant pieces + Payload(order[i..], artifacts) == head + Payload(order, artifacts)
    {
      var piece := Piece(order[i], Content(artifacts, order[i]));
      PieceFirst(pieces, order[i..], artifacts);
      assert order[i..][1..] == order[i + 1..];
      pieces := pieces + piece;
    }
  }

  lemma PieceFirst(pieces: Data, order: seq<Sha>, artifacts: Artifacts)
    requires order != []
    ensures pieces + Piece(order[0], Content(artifacts, order[0])) + Payload(order[1..], artifacts) ==
            pieces + Payload(order, artifacts)
  {
    hide Piece, Content, Payload;
    PayloadHead(order, artifacts);
    Regroup(pieces, Piece(order[0], Content(artifacts, order[0])), Payload(order[1..], artifacts));
  }

  lemma PayloadHead(order: seq<Sha>, artifacts: Artifacts)
    requires order != []
    ensures Payload(order, artifacts) == Piece(order[0], Content(artifacts, order[0])) + Payload(order[1..], artifacts)
  {
  }

  lemma Regroup(a: Data, b: Data, c: Data)
    ensures (a + b) + c == a + (b + c)
  {
  }

  // ----- Decoding -----

  /** The artifact loop of `decode`, from the bytes not yet read. */
  ghost function ReadArtifacts(rest: Data, order: seq<Sha>, total: nat): Result<(Artifacts, Data)>
    decreases |order|
  {
    if order == [] then Ok((map[], rest))
    else if |rest| < 40 then Invalid("truncated artifact header")
    else
      var key, size := rest[..32], Number(rest[32..40]);
      if key != order[0] || !(1 <= size <= MAX_ARTIFACT) || total + size > MAX_PAYLOAD then
        Invalid("artifact order, identity or size")
      else if size > |rest[40..]| then Invalid("truncated artifact")
      else
        var next := ReadArtifacts(rest[40..][size..], order[1..], total + size);
        if next.Invalid? then next
        else Ok((map[key := rest[40..][..size]] + next.value.0, next.value.1))
  }

  /** The length of the manifest that follows the magic, when the package is long enough for it. */
  ghost function ManifestLength(raw: Data): (r: Result<nat>)
    ensures r.Ok? ==> |MAGIC| + 4 + r.value <= |raw|
  {
    if !(|MAGIC| + 4 <= |raw| <= MAX_PACKAGE) then Invalid("interim package size/type")
    else if raw[..|MAGIC|] != MAGIC then Invalid("interim package magic/version")
    else
      var length := Number(raw[|MAGIC|..|MAGIC| + 4]);
      if !(1 <= length <= MAX_MANIFEST) || length > |raw| - |MAGIC| - 4 then Invalid("interim manifest length")
      else Ok(length)
  }

  ghost function Decoding<Scalars(!new)>(lib: Library<Scalars>, raw: Data): Result<(Manifest<Scalars>, Artifacts)> {
    var length := ManifestLength(raw);
    if length.Invalid? then Invalid(length.reason)
    else
      var body := |MAGIC| + 4 + length.value;
      var header := raw[|MAGIC| + 4..body];
      var parsed := lib.parse(header);
      if parsed.Invalid? then Invalid(parsed.reason)
      else if !ManifestValid(lib, parsed.value) then Invalid("interim manifest")
      else if lib.canonical(parsed.value) != header then Invalid("noncanonical interim manifest")
      else
        var read := ReadArtifacts(raw[body..], Order(parsed.value), 0);
        if read.Invalid? then Invalid(read.reason)
        else if read.value.1 != [] then Invalid("unlisted trailing payload")
        else if !DebsMatch(lib, parsed.value.replacements, read.value.0) then
          Invalid("artifact size or digest mismatch")
        else Ok((parsed.value, read.value.0))
  }

  /** One artifact at a position of the whole input. */
  lemma ReadOne(raw: Data, position: nat, order: seq<Sha>, i: nat, total: nat)
    requires position <= |raw| && i < |order|
    ensures ReadArtifacts(raw[position..], order[i..], total) ==
            if |raw| - position < 40 then Invalid("truncated artifact header")
            else
              var key, size := raw[position..position + 32], Number(raw[position + 32..position + 40]);
              if key != order[i] || !(1 <= size <= MAX_ARTIFACT) || total + size > MAX_PAYLOAD then
                Invalid("artifact order, identity or size")
              else if size > |raw| - position - 40 then Invalid("truncated artifact")
              else
                var next := ReadArtifacts(raw[position + 40 + size..], order[i + 1..], total + size);
                if next.Invalid? then next
                else Ok((map[key := raw[position + 40..position + 40 + size]] + next.value.0, next.value.1))
  {
    hide Number;
    var rest := raw[position..];
    assert order[i..][1..] == order[i + 1..];
    if |rest| >= 40 {
      HeadAt(raw, position);
      var size := Number(rest[32..40]);
      if size <= |rest[40..]| { BodyAt(raw, position, size); }
    }
  }

  lemma HeadAt(raw: Data, position: nat)
    requires position + 40 <= |raw|
    ensures raw[position..][..32] == raw[position..position + 32]
    ensures raw[position..][32..40] == raw[position + 32..position + 40]
  {
  }

  lemma BodyAt(raw: Data, position: nat, size: nat)
    requires position + 40 + size <= |raw|
    ensures raw[position..][40..][size..] == raw[position + 40 + size..]
    ensures raw[position..][40..][..size] == raw[position + 40..position + 40 + size]
  {
  }

  /** What is read so far, continued, is what the whole loop reads. */
  ghost predicate ReadSoFar(raw: Data, start: nat, order: seq<Sha>, i: nat, position: nat, total: nat,
                            artifacts: Artifacts)
    requires start <= |raw|
  {
    && i <= |order| && position <= |raw|
    && var all, rest := ReadArtifacts(raw[start..], order, 0), ReadArtifacts(raw[position..], order[i..], total);
       if rest.Invalid? then all.Invalid? else all == Ok((artifacts + rest.value.0, rest.value.1))
  }

  lemma ReadStep(raw: Data, start: nat, order: seq<Sha>, i: nat, position: nat, total: nat, artifacts: Artifacts,
                 size: nat)
    requires start <= |raw| && i < |order| && ReadSoFar(raw, start, order, i, position, total, artifacts)
    requires |raw| - position >= 40 && size == Number(raw[position + 32..position + 40])
    requires raw[position..position + 32] == order[i] && 1 <= size <= MAX_ARTIFACT && total + size <= MAX_PAYLOAD
    requires size <= |raw| - position - 40
    ensures ReadSoFar(raw, start, order, i + 1, position + 40 + size, total + size,
                      artifacts[order[i] := raw[position + 40..position + 40 + size]])
  {
    hide ReadArtifacts, Number;
    ReadOne(raw, position, order, i, total);
    var data := raw[position + 40..position + 40 + size];
    var next := ReadArtifacts(raw[position + 40 + size..], order[i + 1..], total + size);
    if next.Ok? {
      assert artifacts + (map[order[i] := data] + next.value.0) == artifacts[order[i] := data] + next.value.0;
    }
  }

  /** The artifact loop with its moving position and growing dictionary. */
  method ReadAll(raw: Data, start: nat, order: seq<Sha>) returns (r: Result<(Artifacts, nat)>)
    requires start <= |raw|
    ensures r.Ok? <==> ReadArtifacts(raw[start..], order, 0).Ok?
    ensures r.Ok? ==> r.value.1 <= |raw| && ReadArtifacts(raw[start..], order, 0) == Ok((r.value.0, raw[r.value.1..]))
  {
    hide ReadArtifacts, Number;
    var position: nat, total: nat := start, 0;
    var artifacts: Artifacts := map[];
    ReadStart(raw, start, order);
    for i := 0 to |order|
      invariant ReadSoFar(raw, start, order, i, position, total, artifacts)
    {
      ReadOne(raw, position, order, i, total);
      if |raw| - position < 40 { return Invalid("truncated artifact header"); }
      var key := raw[position..position + 32];
      var size := Number(raw[position + 32..position + 40]);
      if key != order[i] || !(1 <= size <= MAX_ARTIFACT) || total + size > MAX_PAYLOAD {
        return Invalid("artifact order, identity or size");
      }
      if size > |raw| - position - 40 { return Invalid("truncated artifact"); }
      ReadStep(raw, start, order, i, position, total, artifacts, size);
      total := total + size;
      artifacts := artifacts[key := raw[position + 40..position + 40 + size]];
      position := position + 40 + size;
    }
    ReadEnd(raw, start, order, position, total, artifacts);
    return Ok((artifacts, position));
  }

  lemma ReadStart(raw: Data, start: nat, order: seq<Sha>)
    requires start <= |raw|
    ensures ReadSoFar(raw, start, order, 0, start, 0, map[])
  {
    var all := ReadArtifacts(raw[start..], order, 0);
    assert order[0..] == order;
    if all.Ok? { assert map[] + all.value.0 == all.value.0; }
  }

  lemma ReadEnd(raw: Data, start: nat, order: seq<Sha>, position: nat, total: nat, artifacts: Artifacts)
    requires start <= |raw| && ReadSoFar(raw, start, order, |order|, position, total, artifacts)
    ensures ReadArtifacts(raw[start..], order, 0) == Ok((artifacts, raw[position..]))
  {
    assert order[|order|..] == [];
    assert artifacts + map[] == artifacts;
  }

  lemma OrderIsDistinct<Scalars>(m: Manifest<Scalars>)
    ensures Distinct(Order(m))
  {
    ShaOrder();
    IncreasingIsDistinct(Order(m), ShaLess);
  }

  method ReadLength(raw: Data) returns (r: Result<nat>)
    ensures r == ManifestLength(raw)
  {
    hide Number;
    if !(|MAGIC| + 4 <= |raw| <= MAX_PACKAGE) { return Invalid("interim package size/type"); }
    if raw[..|MAGIC|] != MAGIC { return Invalid("interim package magic/version"); }
    var position := |MAGIC|;
    var length := Number(raw[position..position + 4]);
    position := position + 4;
    if !(1 <= length <= MAX_MANIFEST) || length > |raw| - position { return Invalid("interim manifest length"); }
    return Ok(length);
  }

  /** `decode`. */
  method Decode<Scalars(!new)>(lib: Library<Scalars>, raw: Data) returns (r: Result<(Manifest<Scalars>, Artifacts)>)
    ensures r.Ok? <==> Decoding(lib, raw).Ok?
    ensures r.Ok? ==> r == Decoding(lib, raw)
  {
    hide ManifestValid, ManifestLength, ReadArtifacts, DebsMatch, Order;
    var length :- ReadLength(raw);
    var position := |MAGIC| + 4;
    var header := raw[position..position + length];
    var m :- lib.parse(header);
    var order :- CheckManifest(lib, m);
    if lib.canonical(m) != header { return Invalid("noncanonical interim manifest"); }
    position := position + length;
    var read :- ReadAll(raw, position, order);
    var (artifacts, end) := read;
    if end != |raw| { return Invalid("unlisted trailing payload"); }
    if !DebsMatch(lib, m.replacements, artifacts) { return Invalid("artifact size or digest mismatch"); }
    return Ok((m, artifacts));
  }

  // ----- The codec is a bijection -----

  lemma ThreeParts(a: Data, b: Data, c: Data)
    ensures var whole := a + b + c;
            && whole[..|a|] == a && whole[|a|..|a| + |b|] == b && whole[|a| + |b|..] == c
  {
  }

  lemma PieceAt(key: Sha, data: Data, tail: Data)
    requires |key| == 32 && |data| < Power256(8)
    ensures var whole := Piece(key, data) + tail;
            && |whole| == 40 + |data| + |tail| && whole[..32] == key && Number(whole[32..40]) == |data|
            && whole[40..][..|data|] == data && whole[40..][|data|..] == tail
  {
    hide Power256, Big, Number;
    var size := Big(|data|, 8);
    NumberOfBig(|data|, 8);
    ThreeParts(key, size, data + tail);
    assert Piece(key, data) + tail == key + size + (data + tail);
    Cut(data, tail);
  }

  /** Reading a piece written for the expected key continues with what follows it. */
  lemma ReadPiece(order: seq<Sha>, data: Data, tail: Data, total: nat)
    requires order != [] && |order[0]| == 32
    requires 1 <= |data| <= MAX_ARTIFACT && total + |data| <= MAX_PAYLOAD
    ensures ReadArtifacts(Piece(order[0], data) + tail, order, total) ==
            Prepend(order[0], data, ReadArtifacts(tail, order[1..], total + |data|))
  {
    Widths();
    PieceAt(order[0], data, tail);
  }

  function Prepend(key: Sha, data: Data, next: Result<(Artifacts, Data)>): Result<(Artifacts, Data)> {
    if next.Invalid? then next else Ok((map[key := data] + next.value.0, next.value.1))
  }

  lemma SplitFirst(order: seq<Sha>)
    requires order != [] && Distinct(order)
    ensures order[0] !in order[1..] && Distinct(order[1..])
    ensures Elements(order) == {order[0]} + Elements(order[1..])
    ensures order[0] !in Elements(order[1..])
  {
    assert order == [order[0]] + order[1..];
  }

  lemma PayloadUnfolds(order: seq<Sha>, artifacts: Artifacts)
    requires order != [] && order[0] in artifacts
    ensures Payload(order, artifacts) == Piece(order[0], artifacts[order[0]]) + Payload(order[1..], artifacts)
    ensures TotalSize(order, artifacts) == |artifacts[order[0]]| + TotalSize(order[1..], artifacts)
  {
  }

  lemma ReadOneMore(order: seq<Sha>, artifacts: Artifacts, total: nat, tail: Data)
    requires order != [] && |order[0]| == 32 && order[0] in artifacts
    requires 1 <= |artifacts[order[0]]| <= MAX_ARTIFACT && total + |artifacts[order[0]]| <= MAX_PAYLOAD
    requires ReadArtifacts(tail, order[1..], total + |artifacts[order[0]]|) == Ok((artifacts - {order[0]}, []))
    ensures ReadArtifacts(Piece(order[0], artifacts[order[0]]) + tail, order, total) == Ok((artifacts, []))
  {
    hide ReadArtifacts, Piece, Prepend;
    ReadPiece(order, artifacts[order[0]], tail, total);
    PrependBack(artifacts, order[0]);
  }

  /** Artifacts of a payload order: exactly its keys, within bounds. */
  ghost predicate Readable(order: seq<Sha>, artifacts: Artifacts) {
    && Distinct(order) && artifacts.Keys == Elements(order)
    && forall k :: k in order ==> |k| == 32 && k in artifacts && 1 <= |artifacts[k]| <= MAX_ARTIFACT
  }

  lemma ReadableRest(order: seq<Sha>, artifacts: Artifacts)
    requires order != [] && Readable(order, artifacts)
    ensures Readable(order[1..], artifacts - {order[0]})
    ensures |order[0]| == 32 && order[0] in artifacts && 1 <= |artifacts[order[0]]| <= MAX_ARTIFACT
    ensures forall k :: k in order[1..] ==> k in artifacts && k != order[0]
  {
    SplitFirst(order);
    assert forall k :: k in order[1..] ==> k in order;
  }

  lemma ReadNothing(artifacts: Artifacts, total: nat)
    requires Readable([], artifacts)
    ensures ReadArtifacts(Payload([], artifacts), [], total) == Ok((artifacts, []))
  {
    assert artifacts == map[];
  }

  lemma {:induction false} ReadPayload(order: seq<Sha>, artifacts: Artifacts, total: nat)
    requires Readable(order, artifacts) && total + TotalSize(order, artifacts) <= MAX_PAYLOAD
    ensures ReadArtifacts(Payload(order, artifacts), order, total) == Ok((artifacts, []))
    decreases |order|
  {
    hide ReadArtifacts, Readable, Payload, Piece, TotalSize;
    if order == [] {
      ReadNothing(artifacts, total);
    } else {
      var others := artifacts - {order[0]};
      ReadableRest(order, artifacts);
      PayloadUnfolds(order, artifacts);
      SamePayload(order[1..], artifacts, others);
      ReadPayload(order[1..], others, total + |artifacts[order[0]]|);
      ReadOneMore(order, artifacts, total, Payload(order[1..], artifacts));
    }
  }

  lemma PrependBack(artifacts: Artifacts, key: Sha)
    requires key in artifacts
    ensures Prepend(key, artifacts[key], Ok((artifacts - {key}, []))) == Ok((artifacts, []))
  {
    assert map[key := artifacts[key]] + (artifacts - {key}) == artifacts;
  }

  lemma {:induction false} SamePayload(order: seq<Sha>, a: Artifacts, b: Artifacts)
    requires forall k :: k in order ==> k in a && k in b && a[k] == b[k]
    ensures Payload(order, a) == Payload(order, b) && TotalSize(order, a) == TotalSize(order, b)
  {
    if order != [] { SamePayload(order[1..], a, b); }
  }

  lemma {:induction false} PayloadLength(order: seq<Sha>, artifacts: Artifacts)
    requires forall k :: k in order ==> k in artifacts && |k| == 32
    ensures |Payload(order, artifacts)| == 40 * |order| + TotalSize(order, artifacts)
  {
    if order != [] { PayloadLength(order[1..], artifacts); }
  }

  /** Every artifact of a valid package is named by a replacement, so its size is within bounds. */
  lemma {:induction false} ArtifactNamed(rs: seq<Replacement>, k: Sha)
    requires k in ArtifactsOf(rs)
    ensures exists i :: 0 <= i < |rs| && (k == rs[i].base.artifact || k == rs[i].target.artifact)
  {
    var n := |rs| - 1;
    if k != rs[n].base.artifact && k != rs[n].target.artifact {
      ArtifactNamed(rs[..n], k);
    }
  }

  lemma ArtifactsBounded<Scalars(!new)>(lib: Library<Scalars>, m: Manifest<Scalars>, artifacts: Artifacts)
    requires ManifestValid(lib, m) && DebsMatch(lib, m.replacements, artifacts)
    ensures forall k :: k in Order(m) ==> |k| == 32 && k in artifacts && 1 <= |artifacts[k]| <= MAX_ARTIFACT
    ensures |Order(m)| == 2 * |m.replacements|
  {
    hide ManifestValid, DebsMatch, ImageMatches, ReplacementValid, ArtifactsOf, Distinct, AllValid;
    ManifestParts(lib, m);
    forall k | k in Order(m)
      ensures |k| == 32 && k in artifacts && 1 <= |artifacts[k]| <= MAX_ARTIFACT
    {
      assert k in Elements(Order(m));
      ArtifactNamed(m.replacements, k);
      var i :| 0 <= i < |m.replacements|
        && (k == m.replacements[i].base.artifact || k == m.replacements[i].target.artifact);
      ImageBounded(lib, m.replacements, i, artifacts);
    }
    DistinctExactly(ArtifactsOf(m.replacements));
  }

  lemma ManifestParts<Scalars(!new)>(lib: Library<Scalars>, m: Manifest<Scalars>)
    requires ManifestValid(lib, m)
    ensures AllValid(m.replacements, |m.replacements|) && Distinct(ArtifactsOf(m.replacements))
    ensures |m.replacements| >= 1
  {
    hide AllValid, Distinct, ListsValid;
  }

  lemma ImageBounded<Scalars>(lib: Library<Scalars>, rs: seq<Replacement>, i: nat, artifacts: Artifacts)
    requires i < |rs| && AllValid(rs, |rs|) && DebsMatch(lib, rs, artifacts)
    ensures forall k :: k == rs[i].base.artifact || k == rs[i].target.artifact ==>
              |k| == 32 && k in artifacts && 1 <= |artifacts[k]| <= MAX_ARTIFACT
  {
    assert ReplacementValid(rs[i]);
    assert ImageMatches(lib, rs[i].base, artifacts) && ImageMatches(lib, rs[i].target, artifacts);
  }

  /** An encoding never exceeds the size that `decode` accepts. */
  lemma EncodingFits<Scalars(!new)>(lib: Library<Scalars>, m: Manifest<Scalars>, artifacts: Artifacts)
    requires PackageValid(lib, m, artifacts)
    ensures |Encoding(lib, m, artifacts)| <= MAX_PACKAGE
  {
    ArtifactsBounded(lib, m, artifacts);
    PayloadLength(Order(m), artifacts);
  }

  lemma HeaderAt(header: Data, payload: Data)
    requires |header| < Power256(4)
    ensures var raw := Head(header) + payload;
            && |raw| == 17 + |header| + |payload| && raw[..13] == MAGIC && Number(raw[13..17]) == |header|
            && raw[17..17 + |header|] == header && raw[17 + |header|..] == payload
  {
    var raw := Head(header) + payload;
    NumberOfBig(|header|, 4);
    assert raw == MAGIC + (Big(|header|, 4) + (header + payload));
    Cut(MAGIC, Big(|header|, 4) + (header + payload));
    assert raw[13..17] == Big(|header|, 4);
    assert raw[17..17 + |header|] == header;
  }

  lemma LengthWritten(header: Data, payload: Data)
    requires 1 <= |header| <= MAX_MANIFEST < Power256(4) && |Head(header) + payload| <= MAX_PACKAGE
    ensures var raw := Head(header) + payload;
            && ManifestLength(raw) == Ok(|header|) && |raw| == 17 + |header| + |payload|
            && raw[17..17 + |header|] == header && raw[17 + |header|..] == payload
  {
    hide Head, Number, Power256;
    HeaderAt(header, payload);
  }

  lemma HeaderFits<Scalars(!new)>(lib: Library<Scalars>, m: Manifest<Scalars>)
    requires ManifestValid(lib, m)
    ensures |lib.canonical(m)| <= MAX_MANIFEST && MAX_MANIFEST < Power256(4)
  {
    Widths();
  }

  /** decode(encode(m, a)) = (m, a). */
  lemma DecodeInvertsEncode<Scalars(!new)>(lib: Library<Scalars>, m: Manifest<Scalars>, artifacts: Artifacts)
    requires PackageValid(lib, m, artifacts) && Faithful(lib)
    ensures Decoding(lib, Encoding(lib, m, artifacts)) == Ok((m, artifacts))
  {
    hide ReadArtifacts, Payload, TotalSize, ManifestValid, DebsMatch, Power256, ManifestLength, Head, Order;
    EncodingFits(lib, m, artifacts);
    HeaderFits(lib, m);
    LengthWritten(lib.canonical(m), Payload(Order(m), artifacts));
    ArtifactsBounded(lib, m, artifacts);
    OrderReadable(m, artifacts);
    ReadPayload(Order(m), artifacts, 0);
  }

  lemma OrderReadable<Scalars>(m: Manifest<Scalars>, artifacts: Artifacts)
    requires artifacts.Keys == Elements(Order(m))
    requires forall k :: k in Order(m) ==> |k| == 32 && k in artifacts && 1 <= |artifacts[k]| <= MAX_ARTIFACT
    ensures Readable(Order(m), artifacts)
  {
    OrderIsDistinct(m);
  }

  /** What an accepted first artifact looked like. */
  lemma PieceRead(rest: Data, order: seq<Sha>, total: nat) returns (data: Data, tail: Data)
    requires order != [] && ReadArtifacts(rest, order, total).Ok?
    ensures |order[0]| == 32 && 1 <= |data| <= MAX_ARTIFACT && total + |data| <= MAX_PAYLOAD
    ensures rest == Piece(order[0], data) + tail
  {
    var size := Number(rest[32..40]);
    data, tail := rest[40..][..size], rest[40..][size..];
    BigOfNumber(rest[32..40]);
    assert rest == rest[..32] + rest[32..40] + (data + tail);
  }

  /** The artifacts that were read, and the bytes they came from. */
  ghost predicate WasPayload(rest: Data, order: seq<Sha>, total: nat, artifacts: Artifacts, left: Data) {
    && artifacts.Keys == Elements(order)
    && (order != [] ==> total + TotalSize(order, artifacts) <= MAX_PAYLOAD)
    && rest == Payload(order, artifacts) + left
  }

  lemma ExtendPayload(order: seq<Sha>, data: Data, tail: Data, total: nat, others: Artifacts, left: Data)
    requires order != [] && Distinct(order) && total + |data| <= MAX_PAYLOAD
    requires WasPayload(tail, order[1..], total + |data|, others, left)
    ensures WasPayload(Piece(order[0], data) + tail, order, total, map[order[0] := data] + others, left)
  {
    hide Piece, Payload, TotalSize;
    var artifacts := map[order[0] := data] + others;
    SplitFirst(order);
    assert forall k :: k in order[1..] ==> k in Elements(order[1..]);
    SamePayload(order[1..], artifacts, others);
    PayloadUnfolds(order, artifacts);
    Regroup(Piece(order[0], data), Payload(order[1..], others), left);
    LastSize(order[1..], others);
  }

  lemma LastSize(order: seq<Sha>, artifacts: Artifacts)
    ensures order == [] ==> TotalSize(order, artifacts) == 0
  {
  }

  lemma NothingRead(rest: Data, total: nat)
    ensures ReadArtifacts(rest, [], total) == Ok((map[], rest)) && WasPayload(rest, [], total, map[], rest)
  {
  }

  lemma {:induction false} ReadWasPayload(rest: Data, order: seq<Sha>, total: nat)
    requires Distinct(order) && ReadArtifacts(rest, order, total).Ok?
    ensures WasPayload(rest, order, total, ReadArtifacts(rest, order, total).value.0,
            ReadArtifacts(rest, order, total).value.1)
    decreases |order|
  {
    hide ReadArtifacts, WasPayload, Piece;
    if order == [] {
      NothingRead(rest, total);
    } else {
      var data, tail := PieceRead(rest, order, total);
      SplitFirst(order);
      ReadPiece(order, data, tail, total);
      ReadWasPayload(tail, order[1..], total + |data|);
      var next := ReadArtifacts(tail, order[1..], total + |data|);
      ExtendPayload(order, data, tail, total, next.value.0, next.value.1);
    }
  }

  lemma HeaderRead(raw: Data, length: nat)
    requires |raw| >= 17 + length && raw[..13] == MAGIC && length == Number(raw[13..17])
    ensures raw == Head(raw[17..17 + length]) + raw[17 + length..]
  {
    BigOfNumber(raw[13..17]);
    assert raw == raw[..13] + raw[13..17] + raw[17..17 + length] + raw[17 + length..];
  }

  /** encode(decode(r)) = r, for every accepted r. */
  lemma EncodeInvertsDecode<Scalars(!new)>(lib: Library<Scalars>, raw: Data)
    requires Decoding(lib, raw).Ok?
    ensures var (m, artifacts) := Decoding(lib, raw).value;
            PackageValid(lib, m, artifacts) && Encoding(lib, m, artifacts) == raw
  {
    hide ReadArtifacts, Payload, TotalSize, DebsMatch, ManifestValid, Order, Head, Distinct, Number;
    var (m, artifacts) := Decoding(lib, raw).value;
    var length := Number(raw[13..17]);
    OrderIsDistinct(m);
    ReadWasPayload(raw[17 + length..], Order(m), 0);
    HeaderRead(raw, length);
    NonEmptyOrder(lib, m);
    assert Payload(Order(m), artifacts) + [] == Payload(Order(m), artifacts);
  }

  lemma NonEmptyOrder<Scalars(!new)>(lib: Library<Scalars>, m: Manifest<Scalars>)
    requires ManifestValid(lib, m)
    ensures Order(m) != []
  {
    hide ManifestValid, Distinct;
    ManifestParts(lib, m);
    DistinctExactly(ArtifactsOf(m.replacements));
  }
}
