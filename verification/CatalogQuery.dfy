/**
 The catalog snapshot frame of native/catalog_query.py: a descriptor, two clock
 readings and rows in strictly increasing order, every byte accounted for.
 */
module CatalogQuery {
  import opened NiaCommon
  import opened Ordering
  import opened Bytes

  const LIMIT := 64 * 1024 * 1024
  const MAX_ROWS := 4096
  const MAX_FIELD := 4096
  const MAX_INT64 := 0x7FFF_FFFF_FFFF_FFFF
  const MAGIC: Data := [78, 73, 65, 81, 82, 89, 48, 49]
  const PUBLICATION: Data := [78, 73, 65, 80, 85, 66, 48, 49]

  datatype Package = Package(
    original: Data, name: string, version: string, architecture: string,
    essential: bool, protected: bool, installedKib: Option<nat>)

  datatype Snapshot = Snapshot(descriptor: Data, started: nat, finished: nat, packages: seq<Package>)

  function Zeros(n: nat): Data {
    seq(n, i => 0)
  }

  // ----- Fields and rows as bytes -----

  predicate VisibleText(s: string) {
    1 <= |s| <= MAX_FIELD && forall i :: 0 <= i < |s| ==> '!' <= s[i] <= '~'
  }

  function Ascii(s: string): Data
    requires VisibleText(s)
  {
    seq(|s|, i requires 0 <= i < |s| => s[i] as int)
  }

  predicate VisibleBytes(b: Data) {
    forall i :: 0 <= i < |b| ==> 33 <= b[i] <= 126
  }

  function FromAscii(b: Data): string
    requires VisibleBytes(b)
  {
    seq(|b|, i requires 0 <= i < |b| => b[i] as char)
  }

  function FieldBytes(s: string): Data {
    if VisibleText(s) then Big(|s|, 2) + Ascii(s) else []
  }

  function Flag(b: bool): Byte {
    if b then 1 else 0
  }

  predicate PackageValid(p: Package) {
    && |p.original| == 32
    && VisibleText(p.name) && VisibleText(p.version) && VisibleText(p.architecture)
    && (p.installedKib.Some? ==> p.installedKib.value <= MAX_INT64)
  }

  /** The fixed 48 bytes of a row. */
  function PrefixBytes(p: Package): Data {
    p.original + Big(if p.installedKib.Some? then p.installedKib.value else 0, 8)
    + [Flag(p.essential), Flag(p.protected), Flag(p.installedKib.Some?)] + Zeros(5)
  }

  function RowBytes(p: Package): Data {
    PrefixBytes(p) + (FieldBytes(p.name) + (FieldBytes(p.version) + FieldBytes(p.architecture)))
  }

  function RowsBytes(packages: seq<Package>): Data {
    if packages == [] then [] else RowBytes(packages[0]) + RowsBytes(packages[1..])
  }

  /** The whole frame. */
  function Render(s: Snapshot): Data {
    MAGIC + s.descriptor + (Big(s.started, 8) + Big(s.finished, 8) + Big(|s.packages|, 8)) + RowsBytes(s.packages)
  }

  /** Where each part of a frame stands. */
  lemma SnapshotLayout(s: Snapshot)
    requires |s.descriptor| == 192 && s.started < Power256(8) && s.finished < Power256(8)
    requires |s.packages| <= MAX_ROWS
    ensures var raw := Render(s);
            && |raw| >= 224
            && raw[..8] == ['N' as int, 'I' as int, 'A' as int, 'Q' as int, 'R' as int, 'Y' as int, '0' as int,
                            '1' as int]
            && raw[8..200] == s.descriptor && Number(raw[200..208]) == s.started
            && Number(raw[208..216]) == s.finished && Number(raw[216..224]) == |s.packages|
            && raw[224..] == RowsBytes(s.packages)
  {
    hide RowsBytes, Big, Number, Power256;
    var raw := Render(s);
    Widths();
    NumberOfBig(s.started, 8);
    NumberOfBig(s.finished, 8);
    NumberOfBig(|s.packages|, 8);
    assert raw[200..208] == Big(s.started, 8);
    assert raw[208..216] == Big(s.finished, 8);
    assert raw[216..224] == Big(|s.packages|, 8);
  }

  /** Where each part of the fixed 48 bytes of a row stands. */
  lemma RowLayout(p: Package)
    requires PackageValid(p)
    ensures var row := RowBytes(p);
            && |row| >= 48 && row[..32] == p.original
            && Number(row[32..40]) == (match p.installedKib case Some(kib) => kib case None => 0)
            && row[40] == (if p.essential then 1 else 0) && row[41] == (if p.protected then 1 else 0)
            && row[42] == (if p.installedKib.Some? then 1 else 0) && row[43..48] == [0, 0, 0, 0, 0]
  {
    hide Big, Number, VisibleText, PrefixBytes, FieldBytes;
    PrefixLayout(p);
    Widths();
    NumberOfBig(if p.installedKib.Some? then p.installedKib.value else 0, 8);
    var row, prefix := RowBytes(p), PrefixBytes(p);
    assert row[..48] == prefix && prefix[43..] == [0, 0, 0, 0, 0];
    assert row[..32] == prefix[..32] && row[32..40] == prefix[32..40] && row[43..48] == prefix[43..];
  }

  /** And of the three texts after them, each behind its length. */
  lemma RowTexts(p: Package)
    requires PackageValid(p)
    ensures var row, n, v := RowBytes(p), |p.name|, |p.version|;
            && |row| == 54 + n + v + |p.architecture|
            && Number(row[48..50]) == n && row[50..50 + n] == Ascii(p.name)
            && Number(row[50 + n..52 + n]) == v && row[52 + n..52 + n + v] == Ascii(p.version)
            && Number(row[52 + n + v..54 + n + v]) == |p.architecture| && row[54 + n + v..] == Ascii(p.architecture)
  {
    hide Big, Number, VisibleText, Ascii, PrefixBytes, FieldBytes;
    PrefixLayout(p);
    TextLayout(p.name);
    TextLayout(p.version);
    TextLayout(p.architecture);
    ThreeParts(PrefixBytes(p), FieldBytes(p.name), FieldBytes(p.version), FieldBytes(p.architecture));
  }

  lemma ThreeParts(prefix: Data, a: Data, b: Data, c: Data)
    requires |prefix| == 48 && |a| >= 2 && |b| >= 2 && |c| >= 2
    ensures var row := prefix + (a + (b + c));
            && |row| == 48 + |a| + |b| + |c|
            && row[48..50] == a[..2] && row[50..48 + |a|] == a[2..]
            && row[48 + |a|..50 + |a|] == b[..2] && row[50 + |a|..48 + |a| + |b|] == b[2..]
            && row[48 + |a| + |b|..50 + |a| + |b|] == c[..2] && row[50 + |a| + |b|..] == c[2..]
  {
  }

  lemma TextLayout(s: string)
    requires VisibleText(s)
    ensures var b := FieldBytes(s); |b| == 2 + |s| && Number(b[..2]) == |s| && b[2..] == Ascii(s)
  {
    hide Big, Number;
    Widths();
    NumberOfBig(|s|, 2);
    assert FieldBytes(s)[..2] == Big(|s|, 2);
  }

  // ----- What is accepted -----

  function Generation(d: Data): nat
    requires |d| == 192
  {
    Number(d[104..112])
  }

  predicate DescriptorValid(d: Data, root: Data, sha: Data -> Data) {
    && |d| == 192
    && d[..8] == PUBLICATION && d[8..24] == root
    && !AllZero(d[24..40]) && d[24..40] != root && !AllZero(d[40..72]) && !AllZero(d[72..104])
    && 0 < Generation(d) <= MAX_INT64
    && (Generation(d) == 1 <==> AllZero(d[112..144]))
    && AllZero(d[144..160]) && sha(d[..160]) == d[160..]
  }

  type Identity = (string, string)

  function IdentityOf(p: Package): Identity {
    (p.name, p.architecture)
  }

  /** Rows after a previous original and already seen identities. */
  ghost predicate RowsValid(packages: seq<Package>, previous: Data, seen: set<Identity>) {
    packages == [] ||
    (&& PackageValid(packages[0]) && Lex(previous, packages[0].original) < 0
     && IdentityOf(packages[0]) !in seen
     && RowsValid(packages[1..], packages[0].original, seen + {IdentityOf(packages[0])}))
  }

  /** The request a frame answers. */
  datatype Request = Request(root: Data, started: nat, deadline: nat, now: nat)

  ghost predicate SnapshotValid(s: Snapshot, q: Request, sha: Data -> Data) {
    && DescriptorValid(s.descriptor, q.root, sha)
    && q.started <= s.started <= s.finished < q.deadline && s.finished <= q.now
    && s.finished < Power256(8) && |s.packages| <= MAX_ROWS
    && RowsValid(s.packages, Zeros(32), {})
  }

  // ----- Reading -----

  ghost function ReadField(rest: Data): Result<(string, Data)> {
    if |rest| < 2 then Invalid("catalog-query-short-field")
    else
      var length := Number(rest[..2]);
      if !(0 < length <= MAX_FIELD) || 2 + length > |rest| then Invalid("catalog-query-field-size")
      else if !VisibleBytes(rest[2..2 + length]) then Invalid("catalog-query-field-control")
      else Ok((FromAscii(rest[2..2 + length]), rest[2 + length..]))
  }

  predicate PrefixAccepted(prefix: Data, previous: Data)
    requires |prefix| == 48
  {
    && Lex(previous, prefix[..32]) < 0
    && prefix[40] <= 1 && prefix[41] <= 1 && prefix[42] <= 1 && AllZero(prefix[43..])
    && Number(prefix[32..40]) <= MAX_INT64
    && (prefix[42] == 0 ==> Number(prefix[32..40]) == 0)
  }

  function PackageOf(prefix: Data, name: string, version: string, architecture: string): Package
    requires |prefix| == 48
  {
    Package(prefix[..32], name, version, architecture, prefix[40] == 1, prefix[41] == 1,
            if prefix[42] == 1 then Some(Number(prefix[32..40])) else None)
  }

  ghost function ReadRow(rest: Data, previous: Data): Result<(Package, Data)> {
    if |rest| < 48 then Invalid("catalog-query-short-row")
    else if !PrefixAccepted(rest[..48], previous) then Invalid("catalog-query-row")
    else
      var name := ReadField(rest[48..]);
      if name.Invalid? then Invalid(name.reason)
      else
        var version := ReadField(name.value.1);
        if version.Invalid? then Invalid(version.reason)
        else
          var architecture := ReadField(version.value.1);
          if architecture.Invalid? then Invalid(architecture.reason)
          else Ok((PackageOf(rest[..48], name.value.0, version.value.0, architecture.value.0), architecture.value.1))
  }

  ghost function ReadRows(rest: Data, count: nat, previous: Data, seen: set<Identity>): Result<(seq<Package>, Data)>
    decreases count
  {
    if count == 0 then Ok(([], rest))
    else
      var row := ReadRow(rest, previous);
      if row.Invalid? then Invalid(row.reason)
      else
        var p := row.value.0;
        if IdentityOf(p) in seen then Invalid("catalog-query-duplicate-package")
        else
          var next := ReadRows(row.value.1, count - 1, p.original, seen + {IdentityOf(p)});
          if next.Invalid? then next else Ok(([p] + next.value.0, next.value.1))
  }

  ghost function Decoding(raw: Data, q: Request, sha: Data -> Data): Result<Snapshot> {
    if !(224 <= |raw| <= LIMIT) || raw[..8] != MAGIC then Invalid("catalog-query-frame")
    else if !DescriptorValid(raw[8..200], q.root, sha) then Invalid("catalog-query-descriptor")
    else
      var begin, end, count := Number(raw[200..208]), Number(raw[208..216]), Number(raw[216..224]);
      if !(q.started <= begin <= end < q.deadline) || end > q.now || count > MAX_ROWS then
        Invalid("catalog-query-clock-or-count")
      else
        var rows := ReadRows(raw[224..], count, Zeros(32), {});
        if rows.Invalid? then Invalid(rows.reason)
        else if rows.value.1 != [] then Invalid("catalog-query-trailing-data")
        else Ok(Snapshot(raw[8..200], begin, end, rows.value.0))
  }

  // ----- The loops of `decode` -----

  /** One field at an offset of the whole frame. */
  method FieldAt(raw: Data, at: nat) returns (r: Result<(string, nat)>)
    requires at <= |raw|
    ensures r.Ok? <==> ReadField(raw[at..]).Ok?
    ensures r.Ok? ==> at < r.value.1 <= |raw| && ReadField(raw[at..]) == Ok((r.value.0, raw[r.value.1..]))
  {
    var offset := at;
    if offset + 2 > |raw| { return Invalid("catalog-query-short-field"); }
    ghost var rest := raw[at..];
    assert rest[..2] == raw[at..at + 2];
    var length := Number(raw[offset..offset + 2]);
    offset := offset + 2;
    if !(0 < length <= MAX_FIELD) || offset + length > |raw| { return Invalid("catalog-query-field-size"); }
    assert rest[2..2 + length] == raw[offset..offset + length] && rest[2 + length..] == raw[offset + length..];
    if !VisibleBytes(raw[offset..offset + length]) { return Invalid("catalog-query-field-control"); }
    return Ok((FromAscii(raw[offset..offset + length]), offset + length));
  }

  /** One row: the prefix, then three fields in an inner loop. */
  method RowAt(raw: Data, at: nat, previous: Data) returns (r: Result<(Package, nat)>)
    requires at <= |raw|
    ensures r.Ok? <==> ReadRow(raw[at..], previous).Ok?
    ensures r.Ok? ==> at < r.value.1 <= |raw| && ReadRow(raw[at..], previous) == Ok((r.value.0, raw[r.value.1..]))
  {
    hide ReadField;
    var offset := at;
    if offset + 48 > |raw| { return Invalid("catalog-query-short-row"); }
    var prefix := raw[offset..offset + 48];
    assert raw[at..][..48] == prefix && raw[at..][48..] == raw[at + 48..];
    offset := offset + 48;
    if !PrefixAccepted(prefix, previous) { return Invalid("catalog-query-row"); }
    var name :- FieldAt(raw, offset);
    var version :- FieldAt(raw, name.1);
    var architecture :- FieldAt(raw, version.1);
    return Ok((PackageOf(prefix, name.0, version.0, architecture.0), architecture.1));
  }

  ghost predicate RowsSoFar(raw: Data, count: nat, i: nat, offset: nat, previous: Data, seen: set<Identity>,
                            packages: seq<Package>)
    requires |raw| >= 224
  {
    && i <= count && offset <= |raw|
    && var all, rest := ReadRows(raw[224..], count, Zeros(32), {}), ReadRows(raw[offset..], count - i, previous, seen);
       if rest.Invalid? then all.Invalid? else all == Ok((packages + rest.value.0, rest.value.1))
  }

  lemma RowsStart(raw: Data, count: nat)
    requires |raw| >= 224
    ensures RowsSoFar(raw, count, 0, 224, Zeros(32), {}, [])
  {
    var all := ReadRows(raw[224..], count, Zeros(32), {});
    if all.Ok? { assert [] + all.value.0 == all.value.0; }
  }

  lemma RowsStep(raw: Data, count: nat, i: nat, offset: nat, previous: Data, seen: set<Identity>,
                 packages: seq<Package>, p: Package, next: nat)
    requires |raw| >= 224 && i < count && RowsSoFar(raw, count, i, offset, previous, seen, packages)
    requires next <= |raw| && ReadRow(raw[offset..], previous) == Ok((p, raw[next..])) && IdentityOf(p) !in seen
    ensures RowsSoFar(raw, count, i + 1, next, p.original, seen + {IdentityOf(p)}, packages + [p])
  {
    hide ReadRow;
    var rest := ReadRows(raw[next..], count - i - 1, p.original, seen + {IdentityOf(p)});
    if rest.Ok? { assert packages + ([p] + rest.value.0) == packages + [p] + rest.value.0; }
  }

  lemma RowsStop(raw: Data, count: nat, i: nat, offset: nat, previous: Data, seen: set<Identity>,
                 packages: seq<Package>)
    requires |raw| >= 224 && i < count && RowsSoFar(raw, count, i, offset, previous, seen, packages)
    requires ReadRow(raw[offset..], previous).Invalid? || IdentityOf(ReadRow(raw[offset..], previous).value.0) in seen
    ensures ReadRows(raw[224..], count, Zeros(32), {}).Invalid?
  {
    hide ReadRow;
  }

  lemma RowsEnd(raw: Data, count: nat, offset: nat, previous: Data, seen: set<Identity>, packages: seq<Package>)
    requires |raw| >= 224 && RowsSoFar(raw, count, count, offset, previous, seen, packages)
    ensures ReadRows(raw[224..], count, Zeros(32), {}) == Ok((packages, raw[offset..]))
  {
    assert packages + [] == packages;
  }

  method AllRows(raw: Data, count: nat) returns (r: Result<(seq<Package>, nat)>)
    requires |raw| >= 224
    ensures r.Ok? <==> ReadRows(raw[224..], count, Zeros(32), {}).Ok?
    ensures r.Ok? ==>
              r.value.1 <= |raw| && ReadRows(raw[224..], count, Zeros(32), {}) == Ok((r.value.0, raw[r.value.1..]))
  {
    hide ReadRows, ReadRow, RowsSoFar;
    var offset, packages, identities, previous := 224, [], {}, Zeros(32);
    RowsStart(raw, count);
    for i := 0 to count
      invariant offset <= |raw| && RowsSoFar(raw, count, i, offset, previous, identities, packages)
    {
      var row := RowAt(raw, offset, previous);
      if row.Invalid? || IdentityOf(row.value.0) in identities {
        RowsStop(raw, count, i, offset, previous, identities, packages);
        return Invalid(if row.Invalid? then row.reason else "catalog-query-duplicate-package");
      }
      var (p, next) := row.value;
      RowsStep(raw, count, i, offset, previous, identities, packages, p, next);
      previous, identities, packages, offset := p.original, identities + {IdentityOf(p)}, packages + [p], next;
    }
    RowsEnd(raw, count, offset, previous, identities, packages);
    return Ok((packages, offset));
  }

  /** `decode`. */
  method Decode(raw: Data, q: Request, sha: Data -> Data) returns (r: Result<Snapshot>)
    ensures r.Ok? <==> Decoding(raw, q, sha).Ok?
    ensures r.Ok? ==> r == Decoding(raw, q, sha)
  {
    hide ReadRows, DescriptorValid, Number;
    if !(224 <= |raw| <= LIMIT) || raw[..8] != MAGIC { return Invalid("catalog-query-frame"); }
    var d := raw[8..200];
    if !DescriptorValid(d, q.root, sha) { return Invalid("catalog-query-descriptor"); }
    var begin, end, count := Number(raw[200..208]), Number(raw[208..216]), Number(raw[216..224]);
    if !(q.started <= begin <= end < q.deadline) || end > q.now || count > MAX_ROWS {
      return Invalid("catalog-query-clock-or-count");
    }
    var rows :- AllRows(raw, count);
    if rows.1 != |raw| { return Invalid("catalog-query-trailing-data"); }
    return Ok(Snapshot(d, begin, end, rows.0));
  }

  // ----- Reading inverts rendering -----

  lemma AsciiInvertible(s: string)
    requires VisibleText(s)
    ensures VisibleBytes(Ascii(s)) && FromAscii(Ascii(s)) == s
  {
  }

  lemma FieldReads(s: string, tail: Data)
    requires VisibleText(s)
    ensures ReadField(FieldBytes(s) + tail) == Ok((s, tail))
  {
    hide Big, Number;
    var rest, n := FieldBytes(s) + tail, |s|;
    Widths();
    NumberOfBig(n, 2);
    AsciiInvertible(s);
    assert rest == Big(n, 2) + (Ascii(s) + tail);
    assert rest[..2] == Big(n, 2) && rest[2..2 + n] == Ascii(s) && rest[2 + n..] == tail;
  }

  lemma FieldWasRead(rest: Data)
    requires ReadField(rest).Ok?
    ensures VisibleText(ReadField(rest).value.0)
    ensures rest == FieldBytes(ReadField(rest).value.0) + ReadField(rest).value.1
  {
    hide Big, Number;
    var n := Number(rest[..2]);
    var s := ReadField(rest).value.0;
    BigOfNumber(rest[..2]);
    assert Ascii(s) == rest[2..2 + n];
    assert rest == rest[..2] + rest[2..2 + n] + rest[2 + n..];
  }

  lemma PrefixLayout(p: Package)
    requires PackageValid(p)
    ensures var b := PrefixBytes(p);
            && |b| == 48 && b[..32] == p.original
            && b[32..40] == Big(if p.installedKib.Some? then p.installedKib.value else 0, 8)
            && b[40] == Flag(p.essential) && b[41] == Flag(p.protected) && b[42] == Flag(p.installedKib.Some?)
            && AllZero(b[43..])
  {
    hide Big;
  }

  lemma PrefixReads(p: Package, previous: Data)
    requires PackageValid(p) && Lex(previous, p.original) < 0
    ensures |PrefixBytes(p)| == 48 && PrefixAccepted(PrefixBytes(p), previous)
    ensures PackageOf(PrefixBytes(p), p.name, p.version, p.architecture) == p
  {
    hide PrefixBytes, Big, Number, Lex;
    PrefixLayout(p);
    Widths();
    NumberOfBig(if p.installedKib.Some? then p.installedKib.value else 0, 8);
  }

  lemma RowReads(p: Package, previous: Data, tail: Data)
    requires PackageValid(p) && Lex(previous, p.original) < 0
    ensures ReadRow(RowBytes(p) + tail, previous) == Ok((p, tail))
  {
    hide ReadField, FieldBytes, PrefixBytes, PrefixAccepted, VisibleText, PackageOf;
    PrefixReads(p, previous);
    var rest := RowBytes(p) + tail;
    var body := FieldBytes(p.name) + (FieldBytes(p.version) + (FieldBytes(p.architecture) + tail));
    assert rest == PrefixBytes(p) + body;
    Cut(PrefixBytes(p), body);
    FieldReads(p.name, FieldBytes(p.version) + (FieldBytes(p.architecture) + tail));
    FieldReads(p.version, FieldBytes(p.architecture) + tail);
    FieldReads(p.architecture, tail);
  }

  lemma {:induction false} RowsRead(packages: seq<Package>, previous: Data, seen: set<Identity>)
    requires RowsValid(packages, previous, seen)
    ensures ReadRows(RowsBytes(packages), |packages|, previous, seen) == Ok((packages, []))
    decreases |packages|
  {
    hide ReadRow, RowBytes, PackageValid, Lex;
    if packages != [] {
      var p := packages[0];
      RowReads(p, previous, RowsBytes(packages[1..]));
      RowsRead(packages[1..], p.original, seen + {IdentityOf(p)});
      assert packages == [p] + packages[1..];
    }
  }

  lemma PrefixWasRead(prefix: Data, previous: Data, name: string, version: string, architecture: string)
    requires |prefix| == 48 && PrefixAccepted(prefix, previous)
    requires VisibleText(name) && VisibleText(version) && VisibleText(architecture)
    ensures var p := PackageOf(prefix, name, version, architecture);
            PackageValid(p) && Lex(previous, p.original) < 0 && PrefixBytes(p) == prefix
  {
    hide Big, Number, Lex, VisibleText;
    BigOfNumber(prefix[32..40]);
    var p := PackageOf(prefix, name, version, architecture);
    var flags := [Flag(p.essential), Flag(p.protected), Flag(p.installedKib.Some?)];
    assert prefix[40..43] == flags && prefix[43..] == Zeros(5);
    assert prefix == prefix[..32] + prefix[32..40] + prefix[40..43] + prefix[43..];
  }

  lemma RowWasRead(rest: Data, previous: Data)
    requires ReadRow(rest, previous).Ok?
    ensures var (p, tail) := ReadRow(rest, previous).value;
            PackageValid(p) && Lex(previous, p.original) < 0 && rest == RowBytes(p) + tail
  {
    hide ReadField, FieldBytes, PrefixBytes, VisibleText, PrefixAccepted, PackageOf;
    var (name, afterName) := ReadField(rest[48..]).value;
    var (version, afterVersion) := ReadField(afterName).value;
    var (architecture, tail) := ReadField(afterVersion).value;
    FieldWasRead(rest[48..]);
    FieldWasRead(afterName);
    FieldWasRead(afterVersion);
    PrefixWasRead(rest[..48], previous, name, version, architecture);
    RowNames(rest[..48], name, version, architecture);
    assert rest == rest[..48] + (FieldBytes(name) + (FieldBytes(version) + (FieldBytes(architecture) + tail)));
    assert rest == rest[..48] + (FieldBytes(name) + (FieldBytes(version) + FieldBytes(architecture))) + tail;
  }

  lemma RowNames(prefix: Data, name: string, version: string, architecture: string)
    requires |prefix| == 48
    ensures var p := PackageOf(prefix, name, version, architecture);
            p.name == name && p.version == version && p.architecture == architecture
  {
  }

  lemma {:induction false} RowsWereRead(rest: Data, count: nat, previous: Data, seen: set<Identity>)
    requires ReadRows(rest, count, previous, seen).Ok?
    ensures var (packages, left) := ReadRows(rest, count, previous, seen).value;
            |packages| == count && RowsValid(packages, previous, seen) && rest == RowsBytes(packages) + left
    decreases count
  {
    hide ReadRow, RowBytes, PackageValid, Lex;
    if count > 0 {
      RowWasRead(rest, previous);
      var (p, tail) := ReadRow(rest, previous).value;
      RowsWereRead(tail, count - 1, p.original, seen + {IdentityOf(p)});
      var (others, left) := ReadRows(tail, count - 1, p.original, seen + {IdentityOf(p)}).value;
      assert ([p] + others)[1..] == others;
      assert RowBytes(p) + (RowsBytes(others) + left) == RowBytes(p) + RowsBytes(others) + left;
    }
  }

  lemma {:induction false} RowsLength(packages: seq<Package>, previous: Data, seen: set<Identity>)
    requires RowsValid(packages, previous, seen)
    ensures |RowsBytes(packages)| <= |packages| * 12342
    decreases |packages|
  {
    if packages != [] {
      RowLength(packages[0]);
      RowsLength(packages[1..], packages[0].original, seen + {IdentityOf(packages[0])});
    }
  }

  lemma RowLength(p: Package)
    requires PackageValid(p)
    ensures |RowBytes(p)| <= 12342
  {
    PrefixLayout(p);
  }

  lemma FrameLayout(d: Data, clocks: Data, rows: Data)
    requires |d| == 192 && |clocks| == 24
    ensures var raw := MAGIC + d + clocks + rows;
            && |raw| == 224 + |rows| && raw[..8] == MAGIC && raw[8..200] == d
            && raw[200..208] == clocks[..8] && raw[208..216] == clocks[8..16] && raw[216..224] == clocks[16..]
            && raw[224..] == rows
  {
  }

  /** Every valid snapshot is read back from its rendering. */
  lemma DecodeInvertsRender(s: Snapshot, q: Request, sha: Data -> Data)
    requires SnapshotValid(s, q, sha)
    ensures Decoding(Render(s), q, sha) == Ok(s)
  {
    hide RowsBytes, ReadRows, RowsValid, Number, Big, Power256, DescriptorValid;
    RowsLength(s.packages, Zeros(32), {});
    var a, b, c := Big(s.started, 8), Big(s.finished, 8), Big(|s.packages|, 8);
    assert |s.descriptor| == 192 by { DescriptorSize(s.descriptor, q.root, sha); }
    FrameLayout(s.descriptor, a + b + c, RowsBytes(s.packages));
    assert (a + b + c)[..8] == a && (a + b + c)[8..16] == b && (a + b + c)[16..] == c;
    Widths();
    NumberOfBig(s.started, 8);
    NumberOfBig(s.finished, 8);
    NumberOfBig(|s.packages|, 8);
    RowsRead(s.packages, Zeros(32), {});
  }

  lemma DescriptorSize(d: Data, root: Data, sha: Data -> Data)
    requires DescriptorValid(d, root, sha)
    ensures |d| == 192
  {
  }

  /** An accepted frame is the one rendering of the snapshot it returns, and that snapshot is valid. */
  lemma DecodeAcceptsOnlyRendering(raw: Data, q: Request, sha: Data -> Data)
    requires Decoding(raw, q, sha).Ok?
    ensures Render(Decoding(raw, q, sha).value) == raw
    ensures SnapshotValid(Decoding(raw, q, sha).value, q, sha)
  {
    hide RowsBytes, ReadRows, RowsValid, Number, Big, Power256, DescriptorValid;
    var s := Decoding(raw, q, sha).value;
    RowsWereRead(raw[224..], Number(raw[216..224]), Zeros(32), {});
    assert raw[224..] == RowsBytes(s.packages) + [] == RowsBytes(s.packages);
    BigOfNumber(raw[200..208]);
    BigOfNumber(raw[208..216]);
    BigOfNumber(raw[216..224]);
    FrameCut(raw);
  }

  lemma FrameCut(raw: Data)
    requires |raw| >= 224
    ensures raw == raw[..8] + raw[8..200] + (raw[200..208] + raw[208..216] + raw[216..224]) + raw[224..]
  {
    assert raw[200..208] + raw[208..216] == raw[200..216];
    assert raw[200..216] + raw[216..224] == raw[200..224];
    assert raw[..8] + raw[8..200] == raw[..200];
    assert raw[..200] + raw[200..224] == raw[..224];
  }

  /** Accepted rows have strictly increasing originals and pairwise different identities. */
  lemma {:induction false} RowsAreUnique(packages: seq<Package>, previous: Data, seen: set<Identity>)
    requires RowsValid(packages, previous, seen)
    ensures forall i :: 0 <= i < |packages| ==>
              Lex(previous, packages[i].original) < 0 && IdentityOf(packages[i]) !in seen
    ensures forall i, j :: 0 <= i < j < |packages| ==>
              Lex(packages[i].original, packages[j].original) < 0 && IdentityOf(packages[i]) != IdentityOf(packages[j])
    decreases |packages|
  {
    hide PackageValid, Lex;
    if packages != [] {
      var p, rest := packages[0], packages[1..];
      RowsAreUnique(rest, p.original, seen + {IdentityOf(p)});
      forall i | 0 < i < |packages|
        ensures Lex(previous, packages[i].original) < 0 && IdentityOf(packages[i]) !in seen
      {
        assert packages[i] == rest[i - 1];
        LexTransitive(previous, p.original, packages[i].original);
      }
      forall i, j | 0 <= i < j < |packages|
        ensures Lex(packages[i].original, packages[j].original) < 0
                && IdentityOf(packages[i]) != IdentityOf(packages[j])
      {
        assert packages[j] == rest[j - 1] && (i > 0 ==> packages[i] == rest[i - 1]);
      }
    }
  }
}
